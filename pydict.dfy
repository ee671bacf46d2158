/** Python's `dict`: an insertion-ordered map.  Assigning to a present key
    replaces its value in place (the key keeps its position); a new key is
    appended at the end. */
module PyDict {
  import opened Common

  type Dict<K(==,!new), V> = seq<(K, V)>

  predicate Distinct<T(==)>(s: seq<T>) {
    forall i, j :: 0 <= i < j < |s| ==> s[i] != s[j]
  }

  /** Iteration order of the keys. */
  function Keys<K(==,!new), V>(d: Dict<K, V>): (ks: seq<K>)
    ensures |ks| == |d|
    ensures forall i :: 0 <= i < |d| ==> ks[i] == d[i].0
  {
    if d == [] then [] else [d[0].0] + Keys(d[1..])
  }

  function KeySet<K(==,!new), V>(d: Dict<K, V>): set<K> {
    set i | 0 <= i < |d| :: d[i].0
  }

  lemma KeysMembers<K(!new), V>(d: Dict<K, V>)
    ensures forall k :: k in Keys(d) <==> k in KeySet(d)
  {
    forall k | k in KeySet(d) ensures k in Keys(d) {
      var i :| 0 <= i < |d| && d[i].0 == k;
      assert Keys(d)[i] == k;
    }
  }

  /** A well-formed dict has each key once. */
  predicate Valid<K(==,!new), V>(d: Dict<K, V>) {
    Distinct(Keys(d))
  }

  /** `d.get(k)` */
  function Get<K(==,!new), V>(d: Dict<K, V>, k: K): (r: Option<V>)
    ensures r.Some? <==> k in KeySet(d)
  {
    if d == [] then None
    else if d[0].0 == k then Some(d[0].1)
    else
      var r := Get(d[1..], k);
      assert KeySet(d) == {d[0].0} + KeySet(d[1..]) by {
        assert forall i :: 1 <= i < |d| ==> d[i] == d[1..][i - 1];
      }
      r
  }

  /** `d[k] = v` */
  function Put<K(==,!new), V>(d: Dict<K, V>, k: K, v: V): (r: Dict<K, V>)
    ensures |r| == if k in KeySet(d) then |d| else |d| + 1
  {
    if d == [] then [(k, v)]
    else
      KeySetCons(d);
      if d[0].0 == k then [(k, v)] + d[1..]
      else [d[0]] + Put(d[1..], k, v)
  }

  lemma KeySetCons<K(!new), V>(d: Dict<K, V>)
    requires d != []
    ensures KeySet(d) == {d[0].0} + KeySet(d[1..])
  {
    assert forall i :: 1 <= i < |d| ==> d[i] == d[1..][i - 1];
  }

  /** Put keeps every existing key in its slot and, for a new key, adds
      the pair after them. */
  lemma {:induction false} PutShape<K(!new), V>(d: Dict<K, V>, k: K, v: V)
    ensures forall i :: 0 <= i < |d| ==> Put(d, k, v)[i].0 == d[i].0
    ensures k !in KeySet(d) ==> Put(d, k, v)[|d|] == (k, v)
  {
    if d != [] {
      KeySetCons(d);
      if d[0].0 != k {
        PutShape(d[1..], k, v);
        var rest := Put(d[1..], k, v);
        assert Put(d, k, v) == [d[0]] + rest;
      }
    }
  }

  /** A present key keeps its position; a new key goes last. */
  lemma PutKeys<K(!new), V>(d: Dict<K, V>, k: K, v: V)
    ensures k in KeySet(d) ==> Keys(Put(d, k, v)) == Keys(d)
    ensures k !in KeySet(d) ==> Keys(Put(d, k, v)) == Keys(d) + [k]
    ensures KeySet(Put(d, k, v)) == KeySet(d) + {k}
  {
    var r := Put(d, k, v);
    PutShape(d, k, v);
    if k in KeySet(d) {
      assert Keys(r) == Keys(d);
    } else {
      assert Keys(r) == Keys(d) + [k];
      assert r[|d|].0 == k;
    }
    forall x | x in KeySet(r) ensures x in KeySet(d) + {k} {
      var i :| 0 <= i < |r| && r[i].0 == x;
      if i < |d| {
        assert d[i].0 == x;
      }
    }
    forall x | x in KeySet(d) ensures x in KeySet(r) {
      var i :| 0 <= i < |d| && d[i].0 == x;
      assert r[i].0 == x;
    }
  }

  /** Assigning a new key appends the pair. */
  lemma {:induction false} PutNew<K(!new), V>(d: Dict<K, V>, k: K, v: V)
    requires k !in KeySet(d)
    ensures Put(d, k, v) == d + [(k, v)]
  {
    if d != [] {
      KeySetCons(d);
      PutNew(d[1..], k, v);
      assert d == [d[0]] + d[1..];
    }
  }

  /** Reading after `d[k] = v`: `v` at `k`, the old value elsewhere. */
  lemma {:induction false} PutGet<K(!new), V>(d: Dict<K, V>, k: K, v: V, j: K)
    ensures Get(Put(d, k, v), j) == if j == k then Some(v) else Get(d, j)
  {
    if d != [] && d[0].0 != k {
      PutGet(d[1..], k, v, j);
      assert Put(d, k, v)[1..] == Put(d[1..], k, v);
    }
  }

  lemma {:induction false} ValidTail<K(!new), V>(d: Dict<K, V>)
    requires d != [] && Valid(d)
    ensures Valid(d[1..]) && d[0].0 !in KeySet(d[1..])
  {
    forall i, j | 0 <= i < j < |d| - 1 ensures Keys(d[1..])[i] != Keys(d[1..])[j] {
      assert Keys(d[1..])[i] == Keys(d)[i + 1];
      assert Keys(d[1..])[j] == Keys(d)[j + 1];
    }
    forall i | 0 <= i < |d| - 1 ensures d[1..][i].0 != d[0].0 {
      assert Keys(d)[i + 1] == d[1..][i].0;
    }
  }

  /** In a well-formed dict each entry is what its key reads. */
  lemma {:induction false} GetAt<K(!new), V>(d: Dict<K, V>, i: nat)
    requires Valid(d) && i < |d|
    ensures Get(d, d[i].0) == Some(d[i].1)
  {
    if i > 0 {
      assert Keys(d)[0] != Keys(d)[i];
      ValidTail(d);
      GetAt(d[1..], i - 1);
    }
  }

  lemma {:induction false} ValidCons<K(!new), V>(p: (K, V), d: Dict<K, V>)
    requires Valid(d) && p.0 !in KeySet(d)
    ensures Valid([p] + d)
  {
    var r := [p] + d;
    assert r[1..] == d;
    forall i, j | 0 <= i < j < |r| ensures Keys(r)[i] != Keys(r)[j] {
      if i == 0 {
        assert Keys(r)[j] == d[j - 1].0;
      } else {
        assert Keys(r)[i] == Keys(d)[i - 1];
        assert Keys(r)[j] == Keys(d)[j - 1];
      }
    }
  }

  /** Assignment keeps keys unique. */
  lemma {:induction false} PutValid<K(!new), V>(d: Dict<K, V>, k: K, v: V)
    requires Valid(d)
    ensures Valid(Put(d, k, v))
  {
    if d != [] {
      ValidTail(d);
      if d[0].0 == k {
        ValidCons((k, v), d[1..]);
      } else {
        PutValid(d[1..], k, v);
        PutKeys(d[1..], k, v);
        ValidCons(d[0], Put(d[1..], k, v));
      }
    }
  }

  lemma {:induction false} ValidInit<K(!new), V>(d: Dict<K, V>)
    requires d != [] && Valid(d)
    ensures Valid(d[..|d| - 1]) && d[|d| - 1].0 !in KeySet(d[..|d| - 1])
  {
    var init := d[..|d| - 1];
    forall i, j | 0 <= i < j < |init| ensures Keys(init)[i] != Keys(init)[j] {
      assert Keys(init)[i] == Keys(d)[i];
      assert Keys(init)[j] == Keys(d)[j];
    }
    forall i | 0 <= i < |init| ensures init[i].0 != d[|d| - 1].0 {
      assert Keys(d)[i] == init[i].0;
    }
  }

  lemma {:induction false} LastValueAbsent<K(!new), V>(ps: seq<(K, V)>, k: K)
    requires k !in PairKeys(ps)
    ensures LastValue(ps, k) == None
  {
    if ps != [] {
      var init := ps[..|ps| - 1];
      assert PairKeys(init) <= PairKeys(ps) by {
        forall i | 0 <= i < |init| ensures init[i].0 in PairKeys(ps) {
          assert init[i] == ps[i];
        }
      }
      LastValueAbsent(init, k);
    }
  }

  /** Pairs with distinct keys give a dict in the pairs' order. */
  lemma {:induction false} FromPairsKeys<K(!new), V>(ps: seq<(K, V)>)
    requires Distinct(Keys(ps))
    ensures Keys(FromPairs(ps)) == Keys(ps)
  {
    if ps != [] {
      var init := ps[..|ps| - 1];
      var last := ps[|ps| - 1];
      ValidInit(ps);
      FromPairsKeys(init);
      FromPairsSnoc(ps);
      var d := FromPairs(init);
      PutKeys(d, last.0, last.1);
      KeysSnoc(ps);
    }
  }

  /** The last pair is put into the dict of the others. */
  lemma FromPairsSnoc<K(!new), V>(ps: seq<(K, V)>)
    requires ps != []
    ensures var init := ps[..|ps| - 1];
      && FromPairs(ps) == Put(FromPairs(init), ps[|ps| - 1].0, ps[|ps| - 1].1)
      && KeySet(FromPairs(init)) == KeySet(init)
  {
    var init := ps[..|ps| - 1];
    assert PairKeys(init) == KeySet(init);
  }

  lemma KeysSnoc<K(!new), V>(ps: seq<(K, V)>)
    requires ps != []
    ensures Keys(ps) == Keys(ps[..|ps| - 1]) + [ps[|ps| - 1].0]
  {
    var init := ps[..|ps| - 1];
    var ks, r := Keys(ps), Keys(init) + [ps[|ps| - 1].0];
    assert |ks| == |r|;
    forall i | 0 <= i < |ks| ensures ks[i] == r[i] {
      if i < |init| {
        assert r[i] == Keys(init)[i] == init[i].0;
      }
    }
  }

  /** The value of the last pair with key `k`. */
  function LastValue<K(==,!new), V>(ps: seq<(K, V)>, k: K): Option<V> {
    if ps == [] then None
    else if ps[|ps| - 1].0 == k then Some(ps[|ps| - 1].1)
    else LastValue(ps[..|ps| - 1], k)
  }

  function PairKeys<K(==,!new), V>(ps: seq<(K, V)>): set<K> {
    set i | 0 <= i < |ps| :: ps[i].0
  }

  /** `dict(pairs)` or a dict comprehension: the pairs assigned in order, so a
      later pair for the same key overwrites an earlier one. */
  function FromPairs<K(==,!new), V>(ps: seq<(K, V)>): (r: Dict<K, V>)
    ensures Valid(r)
    ensures KeySet(r) == PairKeys(ps)
    ensures forall k :: Get(r, k) == LastValue(ps, k)
  {
    if ps == [] then []
    else
      var init := ps[..|ps| - 1];
      assert PairKeys(ps) == PairKeys(init) + {ps[|ps| - 1].0} by {
        assert forall i :: 0 <= i < |init| ==> init[i] == ps[i];
      }
      var (k, v) := ps[|ps| - 1];
      var d := FromPairs(init);
      PutValid(d, k, v);
      PutKeys(d, k, v);
      assert forall j :: Get(Put(d, k, v), j) == LastValue(ps, j) by {
        forall j ensures Get(Put(d, k, v), j) == LastValue(ps, j) { PutGet(d, k, v, j); }
      }
      Put(d, k, v)
  }
}
