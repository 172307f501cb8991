/**
  The bencoding of BEP 3 (The BitTorrent Protocol Specification), written as
  a function, and the proof that the reader of `PyTorrent.parse` decodes it back.
 */
module Encoder {
  import opened Wrappers
  import opened BValues
  import opened Tokens
  import opened Decoder

  /** A value's bencoding: `<len>:<bytes>`, `i<n>e`, `l...e`, `d...e`. */
  function Encode(v: BValue): seq<byte>
  {
    match v
    case BStr(b) => ToDigits(|b|) + [COLON] + b
    case BInt(n) => [INT] + SignedDigits(n) + [END]
    case BList(vs) => [LIST] + EncodeList(vs) + [END]
    case BDict(ps) => [DICT] + EncodePairs(ps) + [END]
  }

  /** The encodings of a sequence of values, one after another. */
  function EncodeList(vs: seq<BValue>): seq<byte>
  {
    if vs == [] then [] else Encode(vs[0]) + EncodeList(vs[1..])
  }

  /** The encodings of key, value, key, value ... */
  function EncodePairs(ps: seq<(BValue, BValue)>): seq<byte>
  {
    if ps == [] then [] else EncodePair(ps[0]) + EncodePairs(ps[1..])
  }

  function EncodePair(p: (BValue, BValue)): seq<byte>
  {
    Encode(p.0) + Encode(p.1)
  }

  /** The values BEP 3 describes: dictionary keys are distinct byte strings. */
  predicate WellFormed(v: BValue)
  {
    match v
    case BStr(_) => true
    case BInt(_) => true
    case BList(vs) => forall x :: x in vs ==> WellFormed(x)
    case BDict(ps) => DistinctKeys(ps) && forall p :: p in ps ==> p.0.BStr? && WellFormed(p.1)
  }

  /** The bytes `e` stand in the buffer from position `i` on. */
  predicate At(s: seq<byte>, i: nat, e: seq<byte>)
  {
    i + |e| <= |s| && s[i..i + |e|] == e
  }

  /** Bytes `a + b` at `i` are `a` at `i` followed by `b`. */
  lemma Split(s: seq<byte>, i: nat, a: seq<byte>, b: seq<byte>)
    requires At(s, i, a + b)
    ensures At(s, i, a) && At(s, i + |a|, b)
  {
    forall k | 0 <= k < |a| ensures s[i..i + |a|][k] == a[k] {
      assert s[i..i + |a + b|][k] == s[i + k];
    }
    forall k | 0 <= k < |b| ensures s[i + |a|..i + |a| + |b|][k] == b[k] {
      assert s[i..i + |a + b|][|a| + k] == s[i + |a| + k];
    }
  }

  lemma AtByte(s: seq<byte>, i: nat, x: byte)
    requires At(s, i, [x])
    ensures i < |s| && s[i] == x
  {
    assert s[i..i + 1][0] == s[i];
  }

  /** The three parts of a byte string's encoding, located in the buffer. */
  lemma StringParts(s: seq<byte>, i: nat, ds: seq<byte>, b: seq<byte>)
    requires At(s, i, ds + ([COLON] + b))
    ensures i + |ds| < |s| && s[i..i + |ds|] == ds && s[i + |ds|] == COLON
    ensures At(s, i + |ds| + 1, b)
  {
    Split(s, i, ds, [COLON] + b);
    Split(s, i + |ds|, [COLON], b);
    AtByte(s, i + |ds|, COLON);
  }

  /** A length prefix `ds`, a colon and the bytes `b` at `i`: the reader appends `b`. */
  lemma StringAt(s: seq<byte>, i: nat, ds: seq<byte>, b: seq<byte>, acc: seq<BValue>)
    requires ds != [] && AllDigits(ds) && DigitsValue(ds) == |b|
    requires At(s, i, ds + ([COLON] + b))
    ensures Scan(s, i, acc) == Scan(s, i + |ds| + 1 + |b|, acc + [BStr(b)])
  {
    StringParts(s, i, ds, b);
    var body := i + |ds| + 1;
    calc {
      Scan(s, i, acc);
    == { StringToken(s, i, ds, acc); }
      Scan(s, body + |b|, acc + [BStr(Slice(s, body, body + |b|))]);
    == { StringToken(s, i, ds, acc); }
      Scan(s, body + |b|, acc + [BStr(b)]);
    }
  }

  /** Reading an encoded byte string appends exactly that string. */
  lemma ScanEncodedString(b: seq<byte>, s: seq<byte>, i: nat, acc: seq<BValue>)
    requires At(s, i, Encode(BStr(b)))
    ensures Scan(s, i, acc) == Scan(s, i + |Encode(BStr(b))|, acc + [BStr(b)])
  {
    var ds := ToDigits(|b|);
    assert Encode(BStr(b)) == ds + ([COLON] + b);
    DigitsRoundTrip(|b|);
    StringAt(s, i, ds, b, acc);
  }

  /** `i`, an optional `-`, the digits `ds` and `e` at `i`: the reader appends the integer. */
  lemma IntegerAt(s: seq<byte>, i: nat, sign: seq<byte>, ds: seq<byte>, acc: seq<BValue>)
    requires sign == [] || sign == [MINUS]
    requires ds != [] && AllDigits(ds)
    requires At(s, i, [INT] + (sign + (ds + [END])))
    ensures Scan(s, i, acc) ==
      Scan(s, i + |sign| + |ds| + 2, acc + [BInt(if sign == [] then DigitsValue(ds) else -(DigitsValue(ds) as int))])
  {
    Split(s, i, [INT], sign + (ds + [END]));
    Split(s, i + 1, sign, ds + [END]);
    Split(s, i + 1 + |sign|, ds, [END]);
    AtByte(s, i, INT);
    AtByte(s, i + 1 + |sign| + |ds|, END);
    if sign != [] {
      AtByte(s, i + 1, MINUS);
    }
    IntegerToken(s, i, sign != [], ds, acc);
  }

  /** Reading an encoded integer appends exactly that integer. */
  lemma ScanEncodedInteger(n: int, s: seq<byte>, i: nat, acc: seq<BValue>)
    requires At(s, i, Encode(BInt(n)))
    ensures Scan(s, i, acc) == Scan(s, i + |Encode(BInt(n))|, acc + [BInt(n)])
  {
    var ds := ToDigits(if n < 0 then -n else n);
    var sign: seq<byte> := if n < 0 then [MINUS] else [];
    assert Encode(BInt(n)) == [INT] + (sign + (ds + [END]));
    DigitsRoundTrip(if n < 0 then -n else n);
    IntegerAt(s, i, sign, ds, acc);
  }

  /** Reading an encoded value appends exactly that value and moves past its encoding. */
  lemma {:induction false} ScanEncoded(v: BValue, s: seq<byte>, i: nat, acc: seq<BValue>)
    requires WellFormed(v)
    requires At(s, i, Encode(v))
    ensures Scan(s, i, acc) == Scan(s, i + |Encode(v)|, acc + [v])
    decreases v, 1
  {
    match v
    case BStr(b) => ScanEncodedString(b, s, i, acc);
    case BInt(n) => ScanEncodedInteger(n, s, i, acc);
    case BList(vs) => ScanEncodedListValue(v, s, i, acc);
    case BDict(ps) => ScanEncodedDict(v, s, i, acc);
  }

  /** Reading an encoded list appends exactly that list. */
  lemma {:induction false} ScanEncodedListValue(v: BValue, s: seq<byte>, i: nat, acc: seq<BValue>)
    requires v.BList? && WellFormed(v)
    requires At(s, i, Encode(v))
    ensures Scan(s, i, acc) == Scan(s, i + |Encode(v)|, acc + [v])
    decreases v, 0
  {
    assert Encode(v) == [LIST] + (EncodeList(v.elems) + [END]);
    Split(s, i, [LIST], EncodeList(v.elems) + [END]);
    AtByte(s, i, LIST);
    ListScopeReturns(v.elems, s, i);
    ListLetterNests(s, i, acc, i + |Encode(v)|, v.elems);
  }

  /** A container's encoding in the buffer: its body after the opening letter, then its `e`. */
  lemma Enclosed(s: seq<byte>, i: nat, open: byte, body: seq<byte>)
    requires At(s, i, [open] + (body + [END]))
    ensures At(s, i + 1, body)
    ensures i + 1 + |body| < |s| && s[i + 1 + |body|] == END
  {
    Split(s, i, [open], body + [END]);
    Split(s, i + 1, body, [END]);
    AtByte(s, i + 1 + |body|, END);
  }

  /** The nested call on an `l` scope returns the cursor just past its own `e`, with the elements in order. */
  lemma {:induction false} ListScopeReturns(vs: seq<BValue>, s: seq<byte>, i: nat)
    requires forall x :: x in vs ==> WellFormed(x)
    requires At(s, i, Encode(BList(vs)))
    ensures Scan(s, i + 1, []) == Ok(Closed(i + |Encode(BList(vs))|, vs))
    decreases vs, 1
  {
    var body := EncodeList(vs);
    assert At(s, i, [LIST] + (body + [END])) && |Encode(BList(vs))| == |body| + 2 by {
      assert Encode(BList(vs)) == [LIST] + (body + [END]);
    }
    Enclosed(s, i, LIST, body);
    ScanEncodedList(vs, s, i + 1, []);
    ScopeCloses(s, i, body, vs);
  }

  /** A nested call whose body reads as `items` returns them at the `e` that follows the body. */
  lemma ScopeCloses(s: seq<byte>, i: nat, body: seq<byte>, items: seq<BValue>)
    requires i + 1 + |body| < |s| && s[i + 1 + |body|] == END
    requires Scan(s, i + 1, []) == Scan(s, i + 1 + |body|, [] + items)
    ensures Scan(s, i + 1, []) == Ok(Closed(i + 2 + |body|, items))
  {
    assert [] + items == items;
    EndLetterCloses(s, i + 1 + |body|, items);
  }

  /** The pairs of a well-formed dictionary, flattened, give back that dictionary. */
  lemma DictOfFlattened(ps: seq<(BValue, BValue)>)
    requires DistinctKeys(ps) && forall p :: p in ps ==> p.0.BStr?
    ensures MakeDict(Flatten(ps)) == Some(BDict(ps))
  {
    PairsFlatten(ps);
    BuildDistinct(ps);
  }

  /** Reading an encoded dictionary appends exactly that dictionary. */
  lemma {:induction false} ScanEncodedDict(v: BValue, s: seq<byte>, i: nat, acc: seq<BValue>)
    requires v.BDict? && WellFormed(v)
    requires At(s, i, Encode(v))
    ensures Scan(s, i, acc) == Scan(s, i + |Encode(v)|, acc + [v])
    decreases v, 0
  {
    assert Encode(v) == [DICT] + (EncodePairs(v.pairs) + [END]);
    Split(s, i, [DICT], EncodePairs(v.pairs) + [END]);
    AtByte(s, i, DICT);
    DictScopeReturns(v.pairs, s, i);
    DictOfFlattened(v.pairs);
    DictLetterNests(s, i, acc, i + |Encode(v)|, Flatten(v.pairs), v);
  }

  /** The nested call on a `d` scope returns the cursor just past its own `e`, with keys and values alternating. */
  lemma {:induction false} DictScopeReturns(ps: seq<(BValue, BValue)>, s: seq<byte>, i: nat)
    requires forall p :: p in ps ==> p.0.BStr? && WellFormed(p.1)
    requires At(s, i, Encode(BDict(ps)))
    ensures Scan(s, i + 1, []) == Ok(Closed(i + |Encode(BDict(ps))|, Flatten(ps)))
    decreases ps, 1
  {
    var body := EncodePairs(ps);
    assert At(s, i, [DICT] + (body + [END])) && |Encode(BDict(ps))| == |body| + 2 by {
      assert Encode(BDict(ps)) == [DICT] + (body + [END]);
    }
    Enclosed(s, i, DICT, body);
    ScanEncodedPairs(ps, s, i + 1, []);
    ScopeCloses(s, i, body, Flatten(ps));
  }

  /** Reading the encodings of `vs` one after another appends `vs` in order. */
  lemma {:induction false} ScanEncodedList(vs: seq<BValue>, s: seq<byte>, i: nat, acc: seq<BValue>)
    requires forall x :: x in vs ==> WellFormed(x)
    requires At(s, i, EncodeList(vs))
    ensures Scan(s, i, acc) == Scan(s, i + |EncodeList(vs)|, acc + vs)
    decreases vs, 0
  {
    if vs == [] {
      assert acc + vs == acc;
    } else {
      var first := Encode(vs[0]);
      var rest := EncodeList(vs[1..]);
      Split(s, i, first, rest);
      calc {
        Scan(s, i, acc);
      == { ScanEncoded(vs[0], s, i, acc); }
        Scan(s, i + |first|, acc + [vs[0]]);
      == { ScanEncodedList(vs[1..], s, i + |first|, acc + [vs[0]]); }
        Scan(s, i + |first| + |rest|, acc + [vs[0]] + vs[1..]);
      == { assert acc + [vs[0]] + vs[1..] == acc + vs; }
        Scan(s, i + |EncodeList(vs)|, acc + vs);
      }
    }
  }

  /** Reading one encoded key and value appends the two. */
  lemma {:induction false} ScanEncodedPair(p: (BValue, BValue), s: seq<byte>, i: nat, acc: seq<BValue>)
    requires p.0.BStr? && WellFormed(p.1)
    requires At(s, i, EncodePair(p))
    ensures Scan(s, i, acc) == Scan(s, i + |EncodePair(p)|, acc + [p.0, p.1])
    decreases p
  {
    var key := Encode(p.0);
    Split(s, i, key, Encode(p.1));
    calc {
      Scan(s, i, acc);
    == { ScanEncodedString(p.0.bytes, s, i, acc); }
      Scan(s, i + |key|, acc + [p.0]);
    == { ScanEncoded(p.1, s, i + |key|, acc + [p.0]); }
      Scan(s, i + |key| + |Encode(p.1)|, acc + [p.0] + [p.1]);
    == { assert acc + [p.0] + [p.1] == acc + [p.0, p.1]; }
      Scan(s, i + |EncodePair(p)|, acc + [p.0, p.1]);
    }
  }

  /** Reading the encodings of a dictionary's pairs appends key, value, key, value ... */
  lemma {:induction false} ScanEncodedPairs(ps: seq<(BValue, BValue)>, s: seq<byte>, i: nat, acc: seq<BValue>)
    requires forall p :: p in ps ==> p.0.BStr? && WellFormed(p.1)
    requires At(s, i, EncodePairs(ps))
    ensures Scan(s, i, acc) == Scan(s, i + |EncodePairs(ps)|, acc + Flatten(ps))
    decreases ps, 0
  {
    if ps == [] {
      assert acc + Flatten(ps) == acc;
    } else {
      var first := EncodePair(ps[0]);
      var rest := EncodePairs(ps[1..]);
      var acc' := acc + [ps[0].0, ps[0].1];
      assert ps[0] in ps;
      Split(s, i, first, rest);
      calc {
        Scan(s, i, acc);
      == { ScanEncodedPair(ps[0], s, i, acc); }
        Scan(s, i + |first|, acc');
      == { ScanEncodedPairs(ps[1..], s, i + |first|, acc'); }
        Scan(s, i + |first| + |rest|, acc' + Flatten(ps[1..]));
      == { assert acc' + Flatten(ps[1..]) == acc + Flatten(ps); }
        Scan(s, i + |EncodePairs(ps)|, acc + Flatten(ps));
      }
    }
  }

  /** Decoding the bencoding of a well-formed value yields that value. */
  lemma RoundTrip(v: BValue)
    requires WellFormed(v)
    ensures Decode(Encode(v)) == Ok(Stored(v))
  {
    assert At(Encode(v), 0, Encode(v));
    ScanEncoded(v, Encode(v), 0, []);
  }

  /** Of several encoded values in one buffer, the top level keeps the first. */
  lemma FirstValueKept(vs: seq<BValue>)
    requires vs != [] && forall x :: x in vs ==> WellFormed(x)
    ensures Decode(EncodeList(vs)) == Ok(Stored(vs[0]))
  {
    assert At(EncodeList(vs), 0, EncodeList(vs));
    ScanEncodedList(vs, EncodeList(vs), 0, []);
  }
}
