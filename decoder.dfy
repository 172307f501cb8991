/**
  The reader of `PyTorrent.parse`: a cursor moves through the buffer, each
  token is classified, `d` and `l` open a nested call that returns at its `e`,
  and the top-level call keeps the first value it decoded.
 */
module Decoder {
  import opened Wrappers
  import opened BValues
  import opened Tokens

  /** How one call of the reader ends. */
  datatype ScopeEnd =
    | Closed(next: nat, items: seq<BValue>)  // met `e`: the cursor just past it, and the elements
    | Exhausted(items: seq<BValue>)          // the cursor reached the end of the buffer

  /** The inputs on which the Python reader raises instead of returning. */
  datatype ParseError =
    | NoToken(pos: nat)        // no alternative of the regular expression matches at `pos`
    | Unterminated(pos: nat)   // the `d` or `l` scope opened at `pos` reaches the end of the buffer
    | UnhashableKey(pos: nat)  // the `d` scope opened at `pos` pairs a list or dict as a key
    | EmptyDocument            // the top level decoded nothing, so `result[0]` fails

  /** `string[a:b]`, clipped to the buffer as Python slicing is. */
  function Slice(s: seq<byte>, a: nat, b: nat): (r: seq<byte>)
    requires a <= |s| && a <= b
    ensures |r| <= b - a
    ensures b <= |s| ==> r == s[a..b]
  {
    s[a..if b <= |s| then b else |s|]
  }

  /**
    A slice that runs past the end of the buffer is the rest of the buffer:
    element k is the byte at `a + k`, and there are `min(b, |s|) - a` of them.
   */
  lemma SliceClipped(s: seq<byte>, a: nat, b: nat)
    requires a <= |s| && a <= b
    ensures b > |s| ==> Slice(s, a, b) == s[a..]
    ensures |Slice(s, a, b)| == if b <= |s| then b - a else |s| - a
    ensures forall k :: 0 <= k < |Slice(s, a, b)| ==> Slice(s, a, b)[k] == s[a + k]
  {
  }

  /**
    The loop of one call of the reader, from cursor `i` with the elements `acc`
    already collected: it stops at the end of the buffer, else handles the
    token at `i`.
   */
  function Scan(s: seq<byte>, i: nat, acc: seq<BValue>): (r: Result<ScopeEnd, ParseError>)
    ensures r.Ok? && r.value.Closed? ==> i < r.value.next <= |s|
    decreases |s| - i, 2
  {
    if i >= |s| then Ok(Exhausted(acc)) else ScanAt(s, i, acc)
  }

  /** One pass of the loop body at cursor `i`: classify the token and act on it. */
  function ScanAt(s: seq<byte>, i: nat, acc: seq<BValue>): (r: Result<ScopeEnd, ParseError>)
    requires i < |s|
    ensures r.Ok? && r.value.Closed? ==> i < r.value.next <= |s|
    decreases |s| - i, 1
  {
    match MatchToken(s, i)
    case None => Err(NoToken(i))
    case Some((tok, j)) =>
      match tok
      case Control(c) =>
        if c == DICT || c == LIST then ScanNested(s, i, acc, j)
        else if c == END then Ok(Closed(j, acc))
        else Scan(s, j, acc)
      case Length(n) => Scan(s, j + n, acc + [BStr(Slice(s, j, j + n))])
      case Integer(v) => Scan(s, j + 1, acc + [BInt(v)])
  }

  /**
    A `d` or `l` at `i`: the nested call from `j` must return at its `e`; its
    elements become one list or dict and the loop resumes where it stopped.
   */
  function ScanNested(s: seq<byte>, i: nat, acc: seq<BValue>, j: nat): (r: Result<ScopeEnd, ParseError>)
    requires i < j <= |s| && (s[i] == DICT || s[i] == LIST)
    ensures r.Ok? && r.value.Closed? ==> i < r.value.next <= |s|
    decreases |s| - i, 0
  {
    match Scan(s, j, [])
    case Err(e) => Err(e)
    case Ok(Exhausted(_)) => Err(Unterminated(i))
    case Ok(Closed(k, items)) =>
      if s[i] == LIST then Scan(s, k, acc + [BList(items)])
      else match MakeDict(items)
        case None => Err(UnhashableKey(i))
        case Some(d) => Scan(s, k, acc + [d])
  }

  /** What the top-level call leaves behind. */
  datatype TopLevel =
    | Stored(value: BValue)                        // `self.torrent_data = result[0]`
    | ReturnedEarly(next: nat, items: seq<BValue>)  // a stray `e` returned before anything was stored

  /** `parse(string)` called with the default cursor 0. */
  function Decode(s: seq<byte>): (r: Result<TopLevel, ParseError>)
    ensures s == [] ==> r == Err(EmptyDocument)
  {
    match Scan(s, 0, [])
    case Err(e) => Err(e)
    case Ok(Closed(next, items)) => Ok(ReturnedEarly(next, items))
    case Ok(Exhausted(items)) => if items == [] then Err(EmptyDocument) else Ok(Stored(items[0]))
  }

  /**
    One call of `parse(string, i)`: the `while` loop over the cursor, appending
    to `result`, recursing on `d` and `l` and returning at `e`.
   */
  method ParseScope(s: seq<byte>, start: nat) returns (r: Result<ScopeEnd, ParseError>)
    ensures r == Scan(s, start, [])
    decreases |s| - start
  {
    var i := start;
    var result: seq<BValue> := [];
    while i < |s|
      invariant start <= i
      invariant Scan(s, i, result) == Scan(s, start, [])
      decreases |s| - i
    {
      assert Scan(s, i, result) == ScanAt(s, i, result);
      var m := MatchToken(s, i);
      if m.None? {
        return Err(NoToken(i));
      }
      var tokenStart := i;
      var (tok, end) := m.value;
      i := end;
      match tok {
        case Control(c) =>
          if c == DICT || c == LIST {
            assert ScanAt(s, tokenStart, result) == ScanNested(s, tokenStart, result, i);
            var nested := ParseScope(s, i);
            if nested.Err? {
              return Err(nested.error);
            }
            if nested.value.Exhausted? {
              return Err(Unterminated(tokenStart));
            }
            i := nested.value.next;
            if c == DICT {
              var d := MakeDict(nested.value.items);
              if d.None? {
                return Err(UnhashableKey(tokenStart));
              }
              result := result + [d.value];
            } else {
              result := result + [BList(nested.value.items)];
            }
          } else if c == END {
            return Ok(Closed(i, result));
          }
        case Length(n) =>
          result := result + [BStr(Slice(s, i, i + n))];
          i := i + n;
        case Integer(v) =>
          result := result + [BInt(v)];
          i := i + 1;
      }
    }
    return Ok(Exhausted(result));
  }

  /** `e` ends the scope: the call returns the cursor just past it and what it collected. */
  lemma EndLetterCloses(s: seq<byte>, i: nat, acc: seq<BValue>)
    requires i < |s| && s[i] == END
    ensures Scan(s, i, acc) == Ok(Closed(i + 1, acc))
  {
    assert Scan(s, i, acc) == ScanAt(s, i, acc);
  }

  /** `l`: the nested call's elements become one list, and the loop resumes where the nested call stopped. */
  lemma ListLetterNests(s: seq<byte>, i: nat, acc: seq<BValue>, k: nat, items: seq<BValue>)
    requires i < |s| && s[i] == LIST
    requires Scan(s, i + 1, []) == Ok(Closed(k, items))
    ensures Scan(s, i, acc) == Scan(s, k, acc + [BList(items)])
  {
    assert Scan(s, i, acc) == ScanAt(s, i, acc);
    assert ScanAt(s, i, acc) == ScanNested(s, i, acc, i + 1);
  }

  /** `d`: the nested call's elements become one dict, and the loop resumes where the nested call stopped. */
  lemma DictLetterNests(s: seq<byte>, i: nat, acc: seq<BValue>, k: nat, items: seq<BValue>, d: BValue)
    requires i < |s| && s[i] == DICT
    requires Scan(s, i + 1, []) == Ok(Closed(k, items))
    requires MakeDict(items) == Some(d)
    ensures Scan(s, i, acc) == Scan(s, k, acc + [d])
  {
    assert Scan(s, i, acc) == ScanAt(s, i, acc);
    assert ScanAt(s, i, acc) == ScanNested(s, i, acc, i + 1);
  }

  /** The letter `i` is consumed and changes nothing. */
  lemma IntLetterIsNoOp(s: seq<byte>, i: nat, acc: seq<BValue>)
    requires i < |s| && s[i] == INT
    ensures Scan(s, i, acc) == Scan(s, i + 1, acc)
  {
    assert Scan(s, i, acc) == ScanAt(s, i, acc);
  }

  /**
    `i<N>e`: the integer is the value of the digit run, with its sign, and the
    cursor ends one byte past the digits; that byte is skipped whatever it is,
    so only a digit or, for a non-negative number, a colon is not accepted there.
   */
  lemma {:induction false} IntegerToken(s: seq<byte>, i: nat, negative: bool, ds: seq<byte>, acc: seq<BValue>)
    requires ds != [] && AllDigits(ds)
    requires i < |s| && s[i] == INT
    requires var start := if negative then i + 2 else i + 1;
      start + |ds| < |s| && s[start..start + |ds|] == ds &&
      (negative ==> s[i + 1] == MINUS) &&
      !IsDigit(s[start + |ds|]) && (negative || s[start + |ds|] != COLON)
    ensures var start := if negative then i + 2 else i + 1;
      Scan(s, i, acc) ==
      Scan(s, start + |ds| + 1, acc + [BInt(if negative then -(DigitsValue(ds) as int) else DigitsValue(ds))])
  {
    IntLetterIsNoOp(s, i, acc);
    if negative {
      MatchNegative(s, i + 1, ds);
    } else {
      MatchNonNegative(s, i + 1, ds);
    }
    assert Scan(s, i + 1, acc) == ScanAt(s, i + 1, acc);
  }

  /**
    `<n>:` followed by the string: the next n bytes are taken verbatim, whatever
    they hold, and the cursor moves exactly n past the colon; a prefix longer
    than what remains takes the bytes that remain.
   */
  lemma {:induction false} StringToken(s: seq<byte>, i: nat, ds: seq<byte>, acc: seq<BValue>)
    requires ds != [] && AllDigits(ds)
    requires i + |ds| < |s| && s[i..i + |ds|] == ds && s[i + |ds|] == COLON
    ensures var body := i + |ds| + 1;
      var n := DigitsValue(ds);
      Scan(s, i, acc) == Scan(s, body + n, acc + [BStr(Slice(s, body, body + n))])
    ensures var body := i + |ds| + 1;
      var n := DigitsValue(ds);
      body + n <= |s| ==> Slice(s, body, body + n) == s[body..body + n] && |Slice(s, body, body + n)| == n
    ensures var body := i + |ds| + 1;
      var n := DigitsValue(ds);
      body + n > |s| ==> Slice(s, body, body + n) == s[body..]
  {
    SliceClipped(s, i + |ds| + 1, i + |ds| + 1 + DigitsValue(ds));
    assert s[i] == ds[0];
    MatchLengthPrefix(s, i, ds);
    assert Scan(s, i, acc) == ScanAt(s, i, acc);
  }

  /**
    A `d` scope: its elements are paired by position, an unpaired last element
    is dropped, a repeated key keeps its last value, and the reader continues
    just past the scope's `e`.
   */
  lemma {:induction false} DictScope(s: seq<byte>, i: nat, acc: seq<BValue>, k: nat, items: seq<BValue>)
    requires i < |s| && s[i] == DICT
    requires Scan(s, i + 1, []) == Ok(Closed(k, items))
    requires forall m :: 0 <= m < |items| / 2 ==> Hashable(items[2 * m])
    ensures exists pairs ::
      && Scan(s, i, acc) == Scan(s, k, acc + [BDict(pairs)])
      && DistinctKeys(pairs)
      && (forall key :: Get(pairs, key) == LastValue(Pairs(items), key))
    ensures |Pairs(items)| == |items| / 2
    ensures forall m :: 0 <= m < |items| / 2 ==> Pairs(items)[m] == (items[2 * m], items[2 * m + 1])
  {
    PairsAt(items);
    forall p | p in Pairs(items) ensures Hashable(p.0) {
      var m :| 0 <= m < |Pairs(items)| && Pairs(items)[m] == p;
    }
    MakeDictSpec(items);
    DictLetterNests(s, i, acc, k, items, MakeDict(items).value);
  }
}
