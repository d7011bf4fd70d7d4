/**
 * Python dictionaries with string keys, as the engine uses them: `dict(pairs)`,
 * `a | b` and dict comprehensions.  A dictionary is its item list in insertion
 * order; assigning to an existing key keeps the key's position and replaces its
 * value, a new key goes to the end.
 */
module Dicts {
  import opened Wrappers
  import opened Seqs

  type Dict<V> = seq<(string, V)>

  function Keys<V>(d: seq<(string, V)>): (ks: seq<string>)
    ensures |ks| == |d|
  {
    if d == [] then [] else [d[0].0] + Keys(d[1..])
  }

  lemma {:induction false} KeysAt<V>(d: seq<(string, V)>, i: nat)
    requires i < |d|
    ensures Keys(d)[i] == d[i].0
  {
    if i > 0 { KeysAt(d[1..], i - 1); }
  }

  lemma {:induction false} KeyIndex<V>(d: seq<(string, V)>, k: string) returns (i: nat)
    requires k in Keys(d)
    ensures i < |d| && d[i].0 == k
  {
    if d[0].0 == k { i := 0; }
    else { i := KeyIndex(d[1..], k); i := i + 1; }
  }

  lemma {:induction false} NotInKeys<V>(d: seq<(string, V)>, k: string)
    requires forall i :: 0 <= i < |d| ==> d[i].0 != k
    ensures k !in Keys(d)
  {
    if d != [] {
      assert d[0].0 != k;
      NotInKeys(d[1..], k);
    }
  }

  lemma {:induction false} KeysConcat<V>(a: seq<(string, V)>, b: seq<(string, V)>)
    ensures Keys(a + b) == Keys(a) + Keys(b)
  {
    if a != [] {
      assert (a + b)[1..] == a[1..] + b;
      KeysConcat(a[1..], b);
    } else {
      assert a + b == b;
    }
  }

  predicate DistinctKeys<V>(d: seq<(string, V)>) {
    forall i, j :: 0 <= i < j < |d| ==> d[i].0 != d[j].0
  }

  lemma {:induction false} DistinctCons<V>(p: (string, V), d: seq<(string, V)>)
    ensures DistinctKeys([p] + d) <==> p.0 !in Keys(d) && DistinctKeys(d)
  {
    var pd := [p] + d;
    assert pd[1..] == d;
    if DistinctKeys(pd) {
      assert DistinctKeys(d) by {
        forall i, j | 0 <= i < j < |d| ensures d[i].0 != d[j].0 {
          assert pd[i + 1] == d[i] && pd[j + 1] == d[j];
        }
      }
      forall i | 0 <= i < |d| ensures d[i].0 != p.0 {
        assert pd[i + 1] == d[i] && pd[0] == p;
        assert pd[0].0 != pd[i + 1].0;
      }
      NotInKeys(d, p.0);
    }
    if p.0 !in Keys(d) && DistinctKeys(d) {
      forall i, j | 0 <= i < j < |pd| ensures pd[i].0 != pd[j].0 {
        if i == 0 {
          KeysAt(d, j - 1);
        } else {
          assert pd[i] == d[i - 1] && pd[j] == d[j - 1];
        }
      }
    }
  }

  /** `d.get(k)` */
  function Get<V>(d: Dict<V>, k: string): (r: Option<V>)
    ensures r.Some? <==> k in Keys(d)
    ensures r.Some? ==> (k, r.value) in d
  {
    if d == [] then None
    else if d[0].0 == k then Some(d[0].1)
    else Get(d[1..], k)
  }

  /** `d[k] = v` */
  function Put<V>(d: Dict<V>, k: string, v: V): (r: Dict<V>)
    ensures Get(r, k) == Some(v)
    ensures forall k' :: k' != k ==> Get(r, k') == Get(d, k')
    ensures Keys(r) == if k in Keys(d) then Keys(d) else Keys(d) + [k]
    ensures DistinctKeys(d) ==> DistinctKeys(r)
    ensures forall p :: p in r ==> p in d || p == (k, v)
  {
    if d == [] then [(k, v)]
    else if d[0].0 == k then
      var r := [(k, v)] + d[1..];
      assert r[1..] == d[1..];
      r
    else
      var rest := Put(d[1..], k, v);
      PutCons(d[0], d[1..], rest, k, v);
      assert d == [d[0]] + d[1..];
      [d[0]] + rest
  }

  /** Put's contract carries over from the tail of a list to the whole list when the
      head's key is not the one assigned. */
  lemma PutCons<V>(p: (string, V), tail: Dict<V>, rest: Dict<V>, k: string, v: V)
    requires p.0 != k
    requires Get(rest, k) == Some(v)
    requires forall k' :: k' != k ==> Get(rest, k') == Get(tail, k')
    requires Keys(rest) == if k in Keys(tail) then Keys(tail) else Keys(tail) + [k]
    requires DistinctKeys(tail) ==> DistinctKeys(rest)
    requires forall q :: q in rest ==> q in tail || q == (k, v)
    ensures Get([p] + rest, k) == Some(v)
    ensures forall k' :: k' != k ==> Get([p] + rest, k') == Get([p] + tail, k')
    ensures Keys([p] + rest) == if k in Keys([p] + tail) then Keys([p] + tail) else Keys([p] + tail) + [k]
    ensures DistinctKeys([p] + tail) ==> DistinctKeys([p] + rest)
    ensures forall q :: q in [p] + rest ==> q in [p] + tail || q == (k, v)
  {
    PutConsGet(p, tail, rest, k, v);
    PutConsKeys(p, tail, rest, k, v);
  }

  lemma PutConsGet<V>(p: (string, V), tail: Dict<V>, rest: Dict<V>, k: string, v: V)
    requires p.0 != k
    requires Get(rest, k) == Some(v)
    requires forall k' :: k' != k ==> Get(rest, k') == Get(tail, k')
    ensures Get([p] + rest, k) == Some(v)
    ensures forall k' :: k' != k ==> Get([p] + rest, k') == Get([p] + tail, k')
  {
    assert ([p] + rest)[1..] == rest;
    assert ([p] + tail)[1..] == tail;
  }

  lemma PutConsKeys<V>(p: (string, V), tail: Dict<V>, rest: Dict<V>, k: string, v: V)
    requires p.0 != k
    requires Keys(rest) == if k in Keys(tail) then Keys(tail) else Keys(tail) + [k]
    requires DistinctKeys(tail) ==> DistinctKeys(rest)
    ensures Keys([p] + rest) == if k in Keys([p] + tail) then Keys([p] + tail) else Keys([p] + tail) + [k]
    ensures DistinctKeys([p] + tail) ==> DistinctKeys([p] + rest)
  {
    assert ([p] + rest)[1..] == rest;
    assert ([p] + tail)[1..] == tail;
    assert Keys([p] + rest) == [p.0] + Keys(rest);
    assert Keys([p] + tail) == [p.0] + Keys(tail);
    DistinctCons(p, tail);
    DistinctCons(p, rest);
  }

  /** The value of the last pair with key k: the one `dict` keeps. */
  function Last<V>(ps: seq<(string, V)>, k: string): (r: Option<V>)
    ensures r.Some? <==> k in Keys(ps)
    ensures r.Some? ==> (k, r.value) in ps
  {
    if ps == [] then None
    else
      KeysConcat(ps[..|ps| - 1], [ps[|ps| - 1]]);
      assert ps[..|ps| - 1] + [ps[|ps| - 1]] == ps;
      if ps[|ps| - 1].0 == k then Some(ps[|ps| - 1].1)
      else Last(ps[..|ps| - 1], k)
  }

  /** A pair whose key no later pair repeats is the last match. */
  lemma {:induction false} LastAt<V>(ps: seq<(string, V)>, j: nat)
    requires j < |ps|
    requires forall l :: j < l < |ps| ==> ps[l].0 != ps[j].0
    ensures Last(ps, ps[j].0) == Some(ps[j].1)
  {
    if j < |ps| - 1 {
      var init := ps[..|ps| - 1];
      assert init[j] == ps[j];
      assert forall l :: j < l < |init| ==> init[l] == ps[l];
      LastAt(init, j);
    }
  }

  /** `d.update(ps)`, pair by pair: later pairs win, keys already in d keep their place. */
  function Update<V>(d: Dict<V>, ps: seq<(string, V)>): (r: Dict<V>)
    ensures forall k :: Get(r, k) == if k in Keys(ps) then Last(ps, k) else Get(d, k)
    ensures |d| <= |r| && Keys(r)[..|d|] == Keys(d)
    ensures forall k :: k in Keys(r) <==> k in Keys(d) || k in Keys(ps)
    ensures DistinctKeys(d) ==> DistinctKeys(r)
    ensures forall p :: p in r ==> p in d || p in ps
    decreases |ps|
  {
    if ps == [] then d
    else
      var init := ps[..|ps| - 1];
      var p := ps[|ps| - 1];
      KeysConcat(init, [p]);
      assert init + [p] == ps;
      Put(Update(d, init), p.0, p.1)
  }

  /** `dict(ps)`: each key at the place of its first pair, with the value of its last. */
  function FromPairs<V>(ps: seq<(string, V)>): (r: Dict<V>)
    ensures forall k :: Get(r, k) == Last(ps, k)
    ensures forall k :: k in Keys(r) <==> k in Keys(ps)
    ensures Keys(r) == Firsts(Keys(ps))
    ensures DistinctKeys(r)
    ensures forall p :: p in r ==> p in ps
  {
    var empty: Dict<V> := [];
    UpdateFirsts(empty, ps);
    assert Keys(empty) + Keys(ps) == Keys(ps);
    Update(empty, ps)
  }

  /** ks with each key only at its first occurrence. */
  function Firsts(ks: seq<string>): (r: seq<string>)
    ensures forall k :: k in r <==> k in ks
  {
    if ks == [] then []
    else
      var init := Firsts(ks[..|ks| - 1]);
      assert ks == ks[..|ks| - 1] + [ks[|ks| - 1]];
      if ks[|ks| - 1] in init then init else init + [ks[|ks| - 1]]
  }

  /** Updating puts each key where it first occurs among the old keys and the pairs'. */
  lemma {:induction false} UpdateFirsts<V>(d: Dict<V>, ps: seq<(string, V)>)
    requires DistinctKeys(d)
    ensures Keys(Update(d, ps)) == Firsts(Keys(d) + Keys(ps))
    decreases |ps|
  {
    if ps == [] {
      assert Keys(ps) == [];
      assert Keys(d) + [] == Keys(d);
      FirstsOfDistinct(d);
    } else {
      var init := ps[..|ps| - 1];
      var p := ps[|ps| - 1];
      SnocSplit(d, ps);
      UpdateSnoc(d, ps);
      KeysConcat(init, [p]);
      assert Keys([p]) == [p.0];
      UpdateFirsts(d, init);
      var ks := Keys(d) + Keys(init);
      AppendAssoc(Keys(d), Keys(init), [p.0]);
      assert (ks + [p.0])[..|ks + [p.0]| - 1] == ks;
    }
  }

  /** Keys already distinct are their own first occurrences. */
  lemma {:induction false} FirstsOfDistinct<V>(d: Dict<V>)
    requires DistinctKeys(d)
    ensures Firsts(Keys(d)) == Keys(d)
  {
    if d != [] {
      var init := d[..|d| - 1];
      var p := d[|d| - 1];
      assert d == init + [p];
      DistinctSnoc(init, p);
      FirstsOfDistinct(init);
      KeysConcat(init, [p]);
      assert Keys([p]) == [p.0];
      assert Keys(d)[..|Keys(d)| - 1] == Keys(init);
    }
  }

  /** `a | b`: the keys of a first, then those only b has, in b's order; b's values win. */
  function Merge<V>(a: Dict<V>, b: Dict<V>): (r: Dict<V>)
    requires DistinctKeys(b)
    ensures forall k :: Get(r, k) == if k in Keys(b) then Get(b, k) else Get(a, k)
    ensures forall k :: k in Keys(r) <==> k in Keys(a) || k in Keys(b)
    ensures |a| <= |r| && Keys(r)[..|a|] == Keys(a)
    ensures Keys(r) == Keys(a) + Fresh(Keys(a), Keys(b))
    ensures DistinctKeys(a) ==> DistinctKeys(r)
  {
    assert forall k :: Last(b, k) == Get(b, k) by {
      forall k ensures Last(b, k) == Get(b, k) { LastIsGet(b, k); }
    }
    UpdateKeys(a, b);
    Update(a, b)
  }

  /** The elements of ks that are not in known, in the order of ks. */
  function Fresh(known: seq<string>, ks: seq<string>): (r: seq<string>)
    ensures forall k :: k in r <==> k in ks && k !in known
  {
    if ks == [] then []
    else (if ks[0] in known then [] else [ks[0]]) + Fresh(known, ks[1..])
  }

  lemma {:induction false} FreshSnoc(known: seq<string>, ks: seq<string>, k: string)
    ensures Fresh(known, ks + [k]) == Fresh(known, ks) + (if k in known then [] else [k])
  {
    if ks == [] {
      assert ks + [k] == [k];
      assert [k][1..] == [];
    } else {
      assert (ks + [k])[1..] == ks[1..] + [k];
      FreshSnoc(known, ks[1..], k);
      var head := if ks[0] in known then [] else [ks[0]];
      var tail := if k in known then [] else [k];
      assert Fresh(known, ks + [k]) == head + (Fresh(known, ks[1..]) + tail);
      AppendAssoc(head, Fresh(known, ks[1..]), tail);
    }
  }

  lemma AppendAssoc<T>(a: seq<T>, b: seq<T>, c: seq<T>)
    ensures (a + b) + c == a + (b + c)
  {
  }

  /** Only which keys are known matters, not their order or repetition. */
  lemma {:induction false} FreshSameMembers(known: seq<string>, known': seq<string>, ks: seq<string>)
    requires forall k :: k in known <==> k in known'
    ensures Fresh(known, ks) == Fresh(known', ks)
  {
    if ks != [] {
      FreshSameMembers(known, known', ks[1..]);
    }
  }

  /** Updating with pairs of distinct keys appends the new keys in the pairs' order. */
  lemma {:induction false} UpdateKeys<V>(d: Dict<V>, ps: seq<(string, V)>)
    requires DistinctKeys(ps)
    ensures Keys(Update(d, ps)) == Keys(d) + Fresh(Keys(d), Keys(ps))
    decreases |ps|
  {
    if ps == [] {
      assert Keys(ps) == [];
      assert Keys(d) + [] == Keys(d);
    } else {
      var init := ps[..|ps| - 1];
      var p := ps[|ps| - 1];
      SnocSplit(d, ps);
      UpdateSnoc(d, ps);
      KeysConcat(init, [p]);
      assert Keys([p]) == [p.0];
      DistinctSnoc(init, p);
      UpdateKeys(d, init);
      FreshSnoc(Keys(d), Keys(init), p.0);
      var u := Update(d, init);
      var added := Fresh(Keys(d), Keys(init));
      assert p.0 in Keys(u) <==> p.0 in Keys(d);
      if p.0 in Keys(d) {
        assert added + [] == added;
      } else {
        assert Keys(Update(d, ps)) == Keys(u) + [p.0];
        AppendAssoc(Keys(d), added, [p.0]);
      }
    }
  }

  /** Last and Get agree on a list with distinct keys. */
  lemma {:induction false} LastIsGet<V>(d: seq<(string, V)>, k: string)
    requires DistinctKeys(d)
    ensures Last(d, k) == Get(d, k)
  {
    if d != [] {
      var init := d[..|d| - 1];
      assert DistinctKeys(init);
      LastIsGet(init, k);
      if k in Keys(init) {
        var i := KeyIndex(init, k);
        assert d[i].0 == k && d[|d| - 1].0 != k;
      }
      GetOfAppend(init, d[|d| - 1], k);
      assert init + [d[|d| - 1]] == d;
    }
  }

  lemma {:induction false} GetOfAppend<V>(d: seq<(string, V)>, p: (string, V), k: string)
    ensures Get(d + [p], k) == if k in Keys(d) then Get(d, k) else if p.0 == k then Some(p.1) else None
  {
    if d == [] {
      assert [] + [p] == [p];
    } else {
      assert (d + [p])[1..] == d[1..] + [p];
      assert Keys(d) == [d[0].0] + Keys(d[1..]);
      GetOfAppend(d[1..], p, k);
    }
  }

  /** Updating with fresh, distinct keys appends the pairs as they are. */
  lemma {:induction false} UpdateFresh<V>(d: Dict<V>, ps: seq<(string, V)>)
    requires DistinctKeys(ps)
    requires forall k :: k in Keys(ps) ==> k !in Keys(d)
    ensures Update(d, ps) == d + ps
    decreases |ps|
  {
    if ps != [] {
      var init := ps[..|ps| - 1];
      var p := ps[|ps| - 1];
      SnocSplit(d, ps);
      UpdateSnoc(d, ps);
      KeysConcat(init, [p]);
      DistinctSnoc(init, p);
      UpdateFresh(d, init);
      KeysConcat(d, init);
      PutFresh(d + init, p.0, p.1);
    }
  }

  lemma SnocSplit<V>(d: Dict<V>, ps: seq<(string, V)>)
    requires ps != []
    ensures ps == ps[..|ps| - 1] + [ps[|ps| - 1]]
    ensures d + ps == (d + ps[..|ps| - 1]) + [(ps[|ps| - 1].0, ps[|ps| - 1].1)]
  {
  }

  /** The last pair of an update is put last. */
  lemma UpdateSnoc<V>(d: Dict<V>, ps: seq<(string, V)>)
    requires ps != []
    ensures Update(d, ps) == Put(Update(d, ps[..|ps| - 1]), ps[|ps| - 1].0, ps[|ps| - 1].1)
  {
  }

  /** Dropping the last pair keeps the keys distinct, and its key is not among the rest. */
  lemma DistinctSnoc<V>(init: seq<(string, V)>, p: (string, V))
    requires DistinctKeys(init + [p])
    ensures DistinctKeys(init) && p.0 !in Keys(init)
  {
    var s := init + [p];
    forall i, j | 0 <= i < j < |init| ensures init[i].0 != init[j].0 {
      assert s[i] == init[i] && s[j] == init[j];
    }
    forall i | 0 <= i < |init| ensures init[i].0 != p.0 {
      assert s[i] == init[i] && s[|init|] == p;
    }
    NotInKeys(init, p.0);
  }

  lemma {:induction false} PutFresh<V>(d: Dict<V>, k: string, v: V)
    requires k !in Keys(d)
    ensures Put(d, k, v) == d + [(k, v)]
  {
    if d != [] {
      assert d[0].0 != k;
      assert Put(d, k, v) == [d[0]] + Put(d[1..], k, v);
      PutFresh(d[1..], k, v);
      assert [d[0]] + (d[1..] + [(k, v)]) == d + [(k, v)];
    }
  }

  /** `dict(ps)` of pairs with distinct keys is those pairs, in their order. */
  lemma FromDistinctPairs<V>(ps: seq<(string, V)>)
    requires DistinctKeys(ps)
    ensures FromPairs(ps) == ps
  {
    UpdateFresh([], ps);
    assert [] + ps == ps;
  }

  lemma {:induction false} KeyOfElement<V>(d: seq<(string, V)>, p: (string, V))
    requires p in d
    ensures p.0 in Keys(d)
  {
    if d[0] != p { KeyOfElement(d[1..], p); }
  }

  /** Deleting pairs keeps the keys distinct. */
  lemma {:induction false} SubsequenceDistinct<V>(xs: seq<(string, V)>, ys: seq<(string, V)>)
    requires Subsequence(xs, ys) && DistinctKeys(ys)
    ensures DistinctKeys(xs)
    decreases |ys|
  {
    if ys != [] {
      assert ys == [ys[0]] + ys[1..];
      DistinctCons(ys[0], ys[1..]);
      if xs != [] && xs[0] == ys[0] && Subsequence(xs[1..], ys[1..]) {
        SubsequenceDistinct(xs[1..], ys[1..]);
        assert xs == [xs[0]] + xs[1..];
        if xs[0].0 in Keys(xs[1..]) {
          var i := KeyIndex(xs[1..], xs[0].0);
          SubsequenceElements(xs[1..], ys[1..], xs[1..][i]);
          KeyOfElement(ys[1..], xs[1..][i]);
        }
        DistinctCons(xs[0], xs[1..]);
      } else {
        SubsequenceDistinct(xs, ys[1..]);
      }
    }
  }

  /** In a list with distinct keys, each pair is what its key looks up. */
  lemma {:induction false} GetDistinct<V>(d: seq<(string, V)>, p: (string, V))
    requires DistinctKeys(d) && p in d
    ensures Get(d, p.0) == Some(p.1)
  {
    assert d == [d[0]] + d[1..];
    DistinctCons(d[0], d[1..]);
    if d[0] != p {
      GetDistinct(d[1..], p);
      KeyOfElement(d[1..], p);
    }
  }
}
