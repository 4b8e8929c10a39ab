/** Python's insertion-ordered `dict`, as the list of its (key, value)
    pairs in insertion order. */
module OrderedDict {
  import opened Outcomes

  type Dict<K, V> = seq<(K, V)>

  function Keys<K, V>(d: Dict<K, V>): seq<K>
  {
    seq(|d|, i requires 0 <= i < |d| => d[i].0)
  }

  function Values<K, V>(d: Dict<K, V>): seq<V>
  {
    seq(|d|, i requires 0 <= i < |d| => d[i].1)
  }

  /** No element occurs twice. */
  predicate Distinct<K(==)>(ks: seq<K>)
  {
    forall i, j :: 0 <= i < j < |ks| ==> ks[i] != ks[j]
  }

  lemma DistinctCons<K>(x: K, ks: seq<K>)
    ensures Distinct([x] + ks) <==> x !in ks && Distinct(ks)
  {
    if x !in ks && Distinct(ks) {
      forall i, j | 0 <= i < j < |ks| + 1 ensures ([x] + ks)[i] != ([x] + ks)[j] {
        assert ([x] + ks)[j] == ks[j - 1];
        if i > 0 {
          assert ([x] + ks)[i] == ks[i - 1];
        }
      }
    }
    if Distinct([x] + ks) {
      forall i, j | 0 <= i < j < |ks| ensures ks[i] != ks[j] {
        assert ([x] + ks)[i + 1] == ks[i] && ([x] + ks)[j + 1] == ks[j];
      }
      forall i | 0 <= i < |ks| ensures ks[i] != x {
        assert ([x] + ks)[0] == x && ([x] + ks)[i + 1] == ks[i];
      }
    }
  }

  /** Every key is present at most once, as in any Python dict. */
  predicate DistinctKeys<K(==), V>(d: Dict<K, V>)
  {
    Distinct(Keys(d))
  }

  lemma KeysCons<K, V>(p: (K, V), d: Dict<K, V>)
    ensures Keys([p] + d) == [p.0] + Keys(d)
  {
  }

  lemma KeysSplit<K, V>(d: Dict<K, V>)
    requires d != []
    ensures Keys(d) == [d[0].0] + Keys(d[1..])
  {
    assert d == [d[0]] + d[1..];
    KeysCons(d[0], d[1..]);
  }

  /** `d.get(k)` */
  function Get<K(==), V>(d: Dict<K, V>, k: K): (r: Option<V>)
    ensures r.None? <==> k !in Keys(d)
  {
    if d == [] then None
    else
      KeysSplit(d);
      if d[0].0 == k then Some(d[0].1) else Get(d[1..], k)
  }

  /** `d[k] = v`: a key already present keeps its place and takes the new
      value; a new key goes last. */
  function Put<K(==), V>(d: Dict<K, V>, k: K, v: V): (r: Dict<K, V>)
    requires DistinctKeys(d)
    ensures Keys(r) == if k in Keys(d) then Keys(d) else Keys(d) + [k]
    ensures DistinctKeys(r)
  {
    if d == [] then [(k, v)]
    else
      KeysSplit(d);
      DistinctCons(d[0].0, Keys(d[1..]));
      if d[0].0 == k then
        var r := [(k, v)] + d[1..];
        assert Keys(r) == Keys(d);
        r
      else
        var t := Put(d[1..], k, v);
        var r := [d[0]] + t;
        KeysCons(d[0], t);
        DistinctCons(d[0].0, Keys(t));
        r
  }

  /** After `d[k] = v`, k holds v and every other key keeps its value. */
  lemma {:induction false} PutGet<K, V>(d: Dict<K, V>, k: K, v: V, k': K)
    requires DistinctKeys(d)
    ensures Get(Put(d, k, v), k) == Some(v)
    ensures k' != k ==> Get(Put(d, k, v), k') == Get(d, k')
  {
    if d != [] && d[0].0 != k {
      KeysSplit(d);
      DistinctKeysTail(d);
      PutGet(d[1..], k, v, k');
      assert Put(d, k, v)[1..] == Put(d[1..], k, v);
    }
  }

  lemma DistinctKeysSlice<K, V>(d: Dict<K, V>, a: nat, b: nat)
    requires DistinctKeys(d) && a <= b <= |d|
    ensures DistinctKeys(d[a..b]) && Keys(d[a..b]) == Keys(d)[a..b]
  {
    assert Keys(d[a..b]) == Keys(d)[a..b];
  }

  lemma DistinctKeysTail<K, V>(d: Dict<K, V>)
    requires DistinctKeys(d) && d != []
    ensures DistinctKeys(d[1..])
  {
    DistinctKeysSlice(d, 1, |d|);
    assert d[1..|d|] == d[1..];
  }

  lemma DistinctKeysPrefix<K, V>(d: Dict<K, V>, n: nat)
    requires DistinctKeys(d) && n <= |d|
    ensures DistinctKeys(d[..n])
  {
    DistinctKeysSlice(d, 0, n);
    assert d[0..n] == d[..n];
  }

  lemma LastKeyNew<K, V>(ps: Dict<K, V>)
    requires DistinctKeys(ps) && ps != []
    ensures ps[|ps| - 1].0 !in Keys(ps[..|ps| - 1])
  {
    var n := |ps| - 1;
    forall i | 0 <= i < n ensures Keys(ps[..n])[i] != ps[n].0 {
      assert Keys(ps)[i] == Keys(ps[..n])[i];
      assert Keys(ps)[n] == ps[n].0;
    }
  }

  /** `d.update(ps)`: puts the pairs one after the other, in order. */
  function Update<K(==), V>(d: Dict<K, V>, ps: seq<(K, V)>): (r: Dict<K, V>)
    requires DistinctKeys(d)
    ensures DistinctKeys(r)
    decreases |ps|
  {
    if ps == [] then d
    else Put(Update(d, ps[..|ps| - 1]), ps[|ps| - 1].0, ps[|ps| - 1].1)
  }

  /** `dict(ps)` */
  function FromPairs<K(==), V>(ps: seq<(K, V)>): (r: Dict<K, V>)
    ensures DistinctKeys(r)
  {
    Update([], ps)
  }

  /** `zip(xs, ys)`: stops at the end of the shorter sequence. */
  function Zip<X, Y>(xs: seq<X>, ys: seq<Y>): (r: seq<(X, Y)>)
    ensures |r| == if |xs| <= |ys| then |xs| else |ys|
    ensures forall i :: 0 <= i < |r| ==> r[i].0 == xs[i] && r[i].1 == ys[i]
  {
    var n := if |xs| <= |ys| then |xs| else |ys|;
    seq(n, i requires 0 <= i < n => (xs[i], ys[i]))
  }

  /** Zipping equally long keys and values gives back both. */
  lemma ZipKeysValues<X, Y>(xs: seq<X>, ys: seq<Y>)
    requires |xs| == |ys|
    ensures Keys(Zip(xs, ys)) == xs && Values(Zip(xs, ys)) == ys
  {
    var z := Zip(xs, ys);
    assert forall i | 0 <= i < |xs| :: Keys(z)[i] == xs[i] && Values(z)[i] == ys[i];
  }

  /** The distinct elements of ks, each where it first occurs. */
  function Dedup<K(==)>(ks: seq<K>): seq<K>
  {
    if ks == [] then []
    else
      var p := Dedup(ks[..|ks| - 1]);
      if ks[|ks| - 1] in p then p else p + [ks[|ks| - 1]]
  }

  /** Position of the first occurrence of k in ks. */
  function FirstIndex<K(==)>(ks: seq<K>, k: K): (i: nat)
    requires k in ks
    ensures i < |ks| && ks[i] == k && k !in ks[..i]
  {
    if ks[0] == k then 0
    else
      var j := FirstIndex(ks[1..], k);
      assert ks[..j + 1] == [ks[0]] + ks[1..][..j];
      j + 1
  }

  /** No later pair of ps has the key of ps[i]. */
  predicate LastOccurrence<K(==), V>(ps: seq<(K, V)>, i: int)
    requires 0 <= i < |ps|
  {
    forall j :: i < j < |ps| ==> ps[j].0 != ps[i].0
  }

  lemma {:induction false} FirstIndexInPrefix<K>(ks: seq<K>, n: nat, k: K)
    requires n <= |ks| && k in ks[..n]
    ensures FirstIndex(ks, k) == FirstIndex(ks[..n], k)
  {
  }

  /** Dedup keeps each element once, loses none, and orders them by first
      occurrence. */
  lemma {:induction false} DedupSpec<K>(ks: seq<K>)
    ensures |Dedup(ks)| <= |ks|
    ensures forall i, j :: 0 <= i < j < |Dedup(ks)| ==> Dedup(ks)[i] != Dedup(ks)[j]
    ensures forall k :: k in Dedup(ks) <==> k in ks
    ensures forall i, j :: 0 <= i < j < |Dedup(ks)| ==>
      FirstIndex(ks, Dedup(ks)[i]) < FirstIndex(ks, Dedup(ks)[j])
  {
    if ks != [] {
      var n := |ks| - 1;
      var front := ks[..n];
      var last := ks[n];
      var p := Dedup(front);
      DedupSpec(front);
      assert ks == front + [last];
      forall k | k in front ensures FirstIndex(ks, k) == FirstIndex(front, k) {
        FirstIndexInPrefix(ks, n, k);
      }
      if last !in p {
        assert FirstIndex(ks, last) == n by {
          assert last !in front;
        }
        var d := Dedup(ks);
        assert d == p + [last];
        forall i, j | 0 <= i < j < |d| ensures FirstIndex(ks, d[i]) < FirstIndex(ks, d[j]) {
          assert d[i] in p;
          if j < |p| {
            assert d[j] in p;
          }
        }
      }
    }
  }

  /** The keys of `dict(ps)` are the distinct keys of ps in first-occurrence order. */
  lemma {:induction false} FromPairsKeys<K, V>(ps: seq<(K, V)>)
    ensures Keys(FromPairs(ps)) == Dedup(Keys(ps))
  {
    if ps != [] {
      var n := |ps| - 1;
      FromPairsKeys(ps[..n]);
      assert Keys(ps[..n]) == Keys(ps)[..n];
    }
  }

  /** After `d.update(ps)` a key of ps holds the value of its last pair. */
  lemma {:induction false} UpdateGetLast<K, V>(d: Dict<K, V>, ps: seq<(K, V)>, i: nat)
    requires DistinctKeys(d) && i < |ps| && LastOccurrence(ps, i)
    ensures Get(Update(d, ps), ps[i].0) == Some(ps[i].1)
  {
    var n := |ps| - 1;
    var front := ps[..n];
    var u := Update(d, front);
    assert Update(d, ps) == Put(u, ps[n].0, ps[n].1);
    if i == n {
      PutGet(u, ps[n].0, ps[n].1, ps[n].0);
    } else {
      assert front[i] == ps[i];
      assert LastOccurrence(front, i) by {
        forall j | i < j < n ensures front[j].0 != front[i].0 {
          assert front[j] == ps[j];
        }
      }
      UpdateGetLast(d, front, i);
      assert ps[n].0 != ps[i].0;
      PutGet(u, ps[n].0, ps[n].1, ps[i].0);
    }
  }

  /** `d.update(ps)` leaves every key that ps does not mention as it was. */
  lemma {:induction false} UpdateGetOther<K, V>(d: Dict<K, V>, ps: seq<(K, V)>, k: K)
    requires DistinctKeys(d) && k !in Keys(ps)
    ensures Get(Update(d, ps), k) == Get(d, k)
  {
    if ps != [] {
      var n := |ps| - 1;
      assert Keys(ps) == Keys(ps[..n]) + [ps[n].0];
      PutGet(Update(d, ps[..n]), ps[n].0, ps[n].1, k);
      UpdateGetOther(d, ps[..n], k);
    }
  }

  /** `d.update(ps)` brings in the keys of ps and no others. */
  lemma UpdateKeys<K, V>(d: Dict<K, V>, ps: seq<(K, V)>, k: K)
    requires DistinctKeys(d)
    ensures k in Keys(Update(d, ps)) <==> k in Keys(d) || k in Keys(ps)
  {
    if k in Keys(ps) {
      var i :| 0 <= i < |ps| && Keys(ps)[i] == k;
      var m := LastIndex(ps, i);
      UpdateGetLast(d, ps, m);
    } else {
      UpdateGetOther(d, ps, k);
    }
  }

  /** The position of the last pair with the key of ps[i]. */
  function LastIndex<K(==), V>(ps: seq<(K, V)>, i: nat): (m: nat)
    requires i < |ps|
    ensures i <= m < |ps| && ps[m].0 == ps[i].0 && LastOccurrence(ps, m)
    decreases |ps| - i
  {
    if exists j :: i < j < |ps| && ps[j].0 == ps[i].0 then
      var j :| i < j < |ps| && ps[j].0 == ps[i].0;
      LastIndex(ps, j)
    else i
  }

  /** A dict is determined by its keys in order and the value of each key. */
  lemma {:induction false} GetAt<K, V>(d: Dict<K, V>, i: nat)
    requires DistinctKeys(d) && i < |d|
    ensures Get(d, d[i].0) == Some(d[i].1)
  {
    if i > 0 {
      assert Keys(d)[0] == d[0].0 && Keys(d)[i] == d[i].0;
      DistinctKeysTail(d);
      GetAt(d[1..], i - 1);
    }
  }

  lemma {:induction false} PutPresent<K, V>(d: Dict<K, V>, k: K, v: V)
    requires DistinctKeys(d) && Get(d, k) == Some(v)
    ensures Put(d, k, v) == d
  {
    if d != [] && d[0].0 != k {
      DistinctKeysTail(d);
      PutPresent(d[1..], k, v);
    }
  }

  lemma {:induction false} PutNew<K, V>(d: Dict<K, V>, k: K, v: V)
    requires DistinctKeys(d) && k !in Keys(d)
    ensures Put(d, k, v) == d + [(k, v)]
  {
    if d != [] {
      KeysSplit(d);
      DistinctCons(d[0].0, Keys(d[1..]));
      PutNew(d[1..], k, v);
      calc {
        Put(d, k, v);
        [d[0]] + Put(d[1..], k, v);
        [d[0]] + (d[1..] + [(k, v)]);
        { assert d == [d[0]] + d[1..]; }
        d + [(k, v)];
      }
    }
  }

  /** Updating with pairs the dict already holds changes nothing. */
  lemma {:induction false} UpdateHeld<K, V>(d: Dict<K, V>, ps: seq<(K, V)>)
    requires DistinctKeys(d)
    requires forall i :: 0 <= i < |ps| ==> Get(d, ps[i].0) == Some(ps[i].1)
    ensures Update(d, ps) == d
  {
    if ps != [] {
      var n := |ps| - 1;
      assert forall i | 0 <= i < n :: ps[..n][i] == ps[i];
      UpdateHeld(d, ps[..n]);
      assert Update(d, ps) == Put(d, ps[n].0, ps[n].1);
      PutPresent(d, ps[n].0, ps[n].1);
    }
  }

  /** Applying the same update of a dict twice is applying it once. */
  lemma UpdateIdempotent<K, V>(d: Dict<K, V>, ps: Dict<K, V>)
    requires DistinctKeys(d) && DistinctKeys(ps)
    ensures Update(Update(d, ps), ps) == Update(d, ps)
  {
    forall i | 0 <= i < |ps| ensures Get(Update(d, ps), ps[i].0) == Some(ps[i].1) {
      forall j | i < j < |ps| ensures ps[j].0 != ps[i].0 {
        assert Keys(ps)[i] == ps[i].0 && Keys(ps)[j] == ps[j].0;
      }
      UpdateGetLast(d, ps, i);
    }
    UpdateHeld(Update(d, ps), ps);
  }

  /** Building a dict from pairs whose keys are already distinct keeps them as they are. */
  lemma {:induction false} FromPairsDistinct<K, V>(ps: seq<(K, V)>)
    requires DistinctKeys(ps)
    ensures FromPairs(ps) == ps
  {
    if ps != [] {
      var n := |ps| - 1;
      var front := ps[..n];
      DistinctKeysPrefix(ps, n);
      LastKeyNew(ps);
      FromPairsDistinct(front);
      PutNew(front, ps[n].0, ps[n].1);
      calc {
        FromPairs(ps);
        Update([], ps);
        Put(Update([], front), ps[n].0, ps[n].1);
        Put(front, ps[n].0, ps[n].1);
        front + [(ps[n].0, ps[n].1)];
        { assert ps == front + [ps[n]]; }
        ps;
      }
    }
  }
}
