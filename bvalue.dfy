/**
  Decoded bencode values, and the behaviour of the Python `dict` that the
  decoder builds for a dictionary scope: keys are hashed, a repeated key keeps
  its first position and takes its last value.
 */
module BValues {
  import opened Wrappers

  /** One byte of the torrent buffer. */
  type byte = x: int | 0 <= x < 256

  /** The four kinds of value the decoder produces. */
  datatype BValue =
    | BStr(bytes: seq<byte>)
    | BInt(n: int)
    | BList(elems: seq<BValue>)
    | BDict(pairs: seq<(BValue, BValue)>)

  /** The ASCII bytes of a text literal, such as the key "announce-list". */
  function Ascii(t: string): seq<byte>
  {
    seq(|t|, k requires 0 <= k < |t| => (t[k] as int) % 256)
  }

  /** Python can hash strings and integers; a list or dict key raises TypeError. */
  predicate Hashable(k: BValue)
  {
    k.BStr? || k.BInt?
  }

  /** The keys that occur in a sequence of pairs. */
  function Keys(d: seq<(BValue, BValue)>): set<BValue>
  {
    set p | p in d :: p.0
  }

  /** No key occurs twice: the shape of every Python dict. */
  predicate DistinctKeys(d: seq<(BValue, BValue)>)
  {
    forall a, b :: 0 <= a < b < |d| ==> d[a].0 != d[b].0
  }

  /** `k in d` followed by `d[k]` on a dict: the value stored under `k`, if any. */
  function Get(d: seq<(BValue, BValue)>, k: BValue): Option<BValue>
  {
    if d == [] then None
    else if d[0].0 == k then Some(d[0].1)
    else Get(d[1..], k)
  }

  /** A lookup in pairs followed by more pairs finds the first part's value first. */
  lemma {:induction false} GetConcat(a: seq<(BValue, BValue)>, b: seq<(BValue, BValue)>, k: BValue)
    ensures Get(a + b, k) == if Get(a, k).Some? then Get(a, k) else Get(b, k)
  {
    if a != [] {
      GetConcat(a[1..], b, k);
      assert (a + b)[1..] == a[1..] + b;
    } else {
      assert a + b == b;
    }
  }

  /** `d[k] = v`: overwrite the value in place when `k` is present, else append. */
  function Insert(d: seq<(BValue, BValue)>, k: BValue, v: BValue): seq<(BValue, BValue)>
  {
    if d == [] then [(k, v)]
    else if d[0].0 == k then [(k, v)] + d[1..]
    else [d[0]] + Insert(d[1..], k, v)
  }

  /** The keys of a pair followed by more pairs. */
  lemma KeysCons(x: (BValue, BValue), r: seq<(BValue, BValue)>)
    ensures Keys([x] + r) == {x.0} + Keys(r)
    ensures DistinctKeys([x] + r) <==> x.0 !in Keys(r) && DistinctKeys(r)
  {
    var d := [x] + r;
    assert forall p :: p in d <==> p == x || p in r;
    if DistinctKeys(d) {
      forall a, b | 0 <= a < b < |r| ensures r[a].0 != r[b].0 {
        assert d[a + 1] == r[a] && d[b + 1] == r[b];
      }
      forall p | p in r ensures p.0 != x.0 {
        var m :| 0 <= m < |r| && r[m] == p;
        assert d[0] == x && d[m + 1] == p;
        assert d[0].0 != d[m + 1].0;
      }
    }
    if x.0 !in Keys(r) && DistinctKeys(r) {
      forall a, b | 0 <= a < b < |d| ensures d[a].0 != d[b].0 {
        if a > 0 {
          assert d[a] == r[a - 1] && d[b] == r[b - 1];
        } else {
          assert d[b] == r[b - 1] && d[b] in r;
        }
      }
    }
  }

  /** `d[k] = v` adds `k` to the keys and keeps them distinct. */
  lemma {:induction false} InsertKeys(d: seq<(BValue, BValue)>, k: BValue, v: BValue)
    ensures Keys(Insert(d, k, v)) == Keys(d) + {k}
    ensures DistinctKeys(d) ==> DistinctKeys(Insert(d, k, v))
  {
    if d != [] {
      assert d == [d[0]] + d[1..];
      KeysCons(d[0], d[1..]);
      if d[0].0 == k {
        KeysCons((k, v), d[1..]);
      } else {
        InsertKeys(d[1..], k, v);
        KeysCons(d[0], Insert(d[1..], k, v));
      }
    }
  }

  /** After `d[k] = v`, `k` reads back as `v` and every other key as before. */
  lemma {:induction false} InsertGet(d: seq<(BValue, BValue)>, k: BValue, v: BValue, k': BValue)
    ensures Get(Insert(d, k, v), k') == if k' == k then Some(v) else Get(d, k')
  {
    if d != [] && d[0].0 != k {
      InsertGet(d[1..], k, v, k');
    }
  }

  /** A new key is appended at the end; an existing key keeps its position. */
  lemma {:induction false} InsertPosition(d: seq<(BValue, BValue)>, k: BValue, v: BValue)
    ensures k !in Keys(d) ==> Insert(d, k, v) == d + [(k, v)]
    ensures k in Keys(d) ==>
      |Insert(d, k, v)| == |d| && (forall m :: 0 <= m < |d| ==> Insert(d, k, v)[m].0 == d[m].0)
  {
    if d != [] {
      assert forall p :: p in d <==> p == d[0] || p in d[1..] by {
        assert d == [d[0]] + d[1..];
      }
      if d[0].0 != k {
        InsertPosition(d[1..], k, v);
      }
    }
  }

  /** `dict(ps)`: the pairs inserted left to right. */
  function Build(ps: seq<(BValue, BValue)>): seq<(BValue, BValue)>
    decreases |ps|
  {
    if ps == [] then [] else Insert(Build(ps[..|ps| - 1]), ps[|ps| - 1].0, ps[|ps| - 1].1)
  }

  /** A dict built from pairs has distinct keys, and they are the keys of the pairs. */
  lemma {:induction false} BuildKeys(ps: seq<(BValue, BValue)>)
    ensures DistinctKeys(Build(ps))
    ensures Keys(Build(ps)) == Keys(ps)
    decreases |ps|
  {
    if ps != [] {
      var init := ps[..|ps| - 1];
      assert forall p :: p in ps <==> p in init || p == ps[|ps| - 1] by {
        assert ps == init + [ps[|ps| - 1]];
      }
      BuildKeys(init);
      InsertKeys(Build(init), ps[|ps| - 1].0, ps[|ps| - 1].1);
    }
  }

  /** Reference reading of a dict built from pairs: the last pair with key `k` wins. */
  function LastValue(ps: seq<(BValue, BValue)>, k: BValue): Option<BValue>
    decreases |ps|
  {
    if ps == [] then None
    else if ps[|ps| - 1].0 == k then Some(ps[|ps| - 1].1)
    else LastValue(ps[..|ps| - 1], k)
  }

  /** A repeated key keeps the value of its last occurrence. */
  lemma {:induction false} BuildLastWins(ps: seq<(BValue, BValue)>, k: BValue)
    ensures Get(Build(ps), k) == LastValue(ps, k)
    decreases |ps|
  {
    if ps != [] {
      BuildLastWins(ps[..|ps| - 1], k);
      InsertGet(Build(ps[..|ps| - 1]), ps[|ps| - 1].0, ps[|ps| - 1].1, k);
    }
  }

  lemma LastKeyFresh(ps: seq<(BValue, BValue)>)
    requires ps != [] && DistinctKeys(ps)
    ensures ps[|ps| - 1].0 !in Keys(ps[..|ps| - 1])
  {
  }

  /** Pairs whose keys are already distinct come out unchanged, in order. */
  lemma {:induction false} BuildDistinct(ps: seq<(BValue, BValue)>)
    requires DistinctKeys(ps)
    ensures Build(ps) == ps
    decreases |ps|
  {
    if ps != [] {
      var init := ps[..|ps| - 1];
      assert DistinctKeys(init);
      BuildDistinct(init);
      LastKeyFresh(ps);
      InsertPosition(init, ps[|ps| - 1].0, ps[|ps| - 1].1);
      assert ps == init + [ps[|ps| - 1]];
    }
  }

  /** `zip(r[0::2], r[1::2])`: each even-position element with the element after it. */
  function Pairs(items: seq<BValue>): seq<(BValue, BValue)>
  {
    if |items| < 2 then [] else [(items[0], items[1])] + Pairs(items[2..])
  }

  /** The pairing by position: pair m is elements 2m and 2m+1; an unpaired last element is dropped. */
  lemma {:induction false} PairsAt(items: seq<BValue>)
    ensures |Pairs(items)| == |items| / 2
    ensures forall m :: 0 <= m < |items| / 2 ==>
      Pairs(items)[m].0 == items[2 * m] && Pairs(items)[m].1 == items[2 * m + 1]
  {
    if |items| >= 2 {
      PairsAt(items[2..]);
      forall m | 0 < m < |items| / 2
        ensures Pairs(items)[m].0 == items[2 * m] && Pairs(items)[m].1 == items[2 * m + 1]
      {
        assert Pairs(items)[m] == Pairs(items[2..])[m - 1];
        assert items[2..][2 * (m - 1)] == items[2 * m];
        assert items[2..][2 * (m - 1) + 1] == items[2 * m + 1];
      }
    }
  }

  /** The flat key, value, key, value ... sequence a dictionary scope yields. */
  function Flatten(ps: seq<(BValue, BValue)>): seq<BValue>
  {
    if ps == [] then [] else [ps[0].0, ps[0].1] + Flatten(ps[1..])
  }

  lemma {:induction false} PairsFlatten(ps: seq<(BValue, BValue)>)
    ensures Pairs(Flatten(ps)) == ps
  {
    if ps != [] {
      PairsFlatten(ps[1..]);
      assert Flatten(ps)[2..] == Flatten(ps[1..]);
    }
  }

  /** `dict(zip(r[0::2], r[1::2]))` on the elements of a `d` scope; None where Python raises TypeError. */
  function MakeDict(items: seq<BValue>): Option<BValue>
  {
    var ps := Pairs(items);
    if forall p :: p in ps ==> Hashable(p.0) then Some(BDict(Build(ps))) else None
  }

  /**
    The dict a `d` scope yields: it exists exactly when every paired key is
    hashable, its keys are distinct and are the paired keys, and each key holds
    the value of its last occurrence.
   */
  lemma MakeDictSpec(items: seq<BValue>)
    ensures MakeDict(items).Some? <==> forall p :: p in Pairs(items) ==> Hashable(p.0)
    ensures MakeDict(items).Some? ==>
      && MakeDict(items).value.BDict?
      && DistinctKeys(MakeDict(items).value.pairs)
      && Keys(MakeDict(items).value.pairs) == Keys(Pairs(items))
      && forall k :: Get(MakeDict(items).value.pairs, k) == LastValue(Pairs(items), k)
  {
    BuildKeys(Pairs(items));
    forall k ensures Get(Build(Pairs(items)), k) == LastValue(Pairs(items), k) {
      BuildLastWins(Pairs(items), k);
    }
  }
}
