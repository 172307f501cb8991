/** Small buffers on which the reader's unusual choices show. */
module Quirks {
  import opened Wrappers
  import opened BValues
  import opened Tokens
  import opened Decoder

  /** `i42x`: the byte after an integer's digits is skipped unchecked, so `x` closes it like `e`. */
  lemma IntegerTerminatorUnchecked()
    ensures Decode([105, 52, 50, 120]) == Ok(Stored(BInt(42)))
  {
    var s: seq<byte> := [105, 52, 50, 120];
    IntegerToken(s, 0, false, [52, 50], []);
    assert DigitsValue([52, 50]) == 42 by {
      assert [52, 50][..1] == [52];
    }
  }

  /** `42`: digits without a colon are an integer even without `i`. */
  lemma BareDigitsAreInteger()
    ensures Decode([52, 50]) == Ok(Stored(BInt(42)))
  {
    var s: seq<byte> := [52, 50];
    MatchNonNegative(s, 0, [52, 50]);
    assert DigitsValue([52, 50]) == 42 by {
      assert [52, 50][..1] == [52];
    }
    assert Scan(s, 0, []) == ScanAt(s, 0, []);
  }

  /** The buffer `d1:ai1e1:ai2ee`, which gives the key `a` twice. */
  predicate IsRepeatedKey(s: seq<byte>)
  {
    s == [100, 49, 58, 97, 105, 49, 101, 49, 58, 97, 105, 50, 101, 101]
  }

  /**
    Its dictionary scope yields `a`, 1, `a`, 2 and closes at the final `e`,
    index 13; the `e` at index 12 is the byte skipped after the integer 2.
   */
  lemma RepeatedKeyScope(s: seq<byte>)
    requires IsRepeatedKey(s)
    ensures Scan(s, 1, []) == Ok(Closed(14, [BStr([97]), BInt(1), BStr([97]), BInt(2)]))
  {
    var a := BStr([97]);
    calc {
      Scan(s, 1, []);
    == { RepeatedKeyFirstPair(s); }
      Scan(s, 7, [a, BInt(1)]);
    == { RepeatedKeySecondPair(s); }
      Scan(s, 13, [a, BInt(1), a, BInt(2)]);
    == { EndLetterCloses(s, 13, [a, BInt(1), a, BInt(2)]); }
      Ok(Closed(14, [a, BInt(1), a, BInt(2)]));
    }
  }

  lemma RepeatedKeyFirstPair(s: seq<byte>)
    requires IsRepeatedKey(s)
    ensures Scan(s, 1, []) == Scan(s, 7, [BStr([97]), BInt(1)])
  {
    var a := BStr([97]);
    assert DigitsValue([49]) == 1;
    calc {
      Scan(s, 1, []);
    == { assert s[1..2] == [49]; StringToken(s, 1, [49], []);
         assert Slice(s, 3, 4) == [97];
         assert [] + [BStr(Slice(s, 3, 4))] == [a]; }
      Scan(s, 4, [a]);
    == { assert s[5..6] == [49]; IntegerToken(s, 4, false, [49], [a]);
         assert [a] + [BInt(DigitsValue([49]))] == [a, BInt(1)]; }
      Scan(s, 7, [a, BInt(1)]);
    }
  }

  lemma RepeatedKeySecondPair(s: seq<byte>)
    requires IsRepeatedKey(s)
    ensures Scan(s, 7, [BStr([97]), BInt(1)]) == Scan(s, 13, [BStr([97]), BInt(1), BStr([97]), BInt(2)])
  {
    var a := BStr([97]);
    assert DigitsValue([49]) == 1 && DigitsValue([50]) == 2;
    calc {
      Scan(s, 7, [a, BInt(1)]);
    == { assert s[7..8] == [49]; StringToken(s, 7, [49], [a, BInt(1)]);
         assert Slice(s, 9, 10) == [97];
         assert [a, BInt(1)] + [BStr(Slice(s, 9, 10))] == [a, BInt(1), a]; }
      Scan(s, 10, [a, BInt(1), a]);
    == { assert s[11..12] == [50]; IntegerToken(s, 10, false, [50], [a, BInt(1), a]);
         assert [a, BInt(1), a] + [BInt(DigitsValue([50]))] == [a, BInt(1), a, BInt(2)]; }
      Scan(s, 13, [a, BInt(1), a, BInt(2)]);
    }
  }

  /** Pairing `a`, 1, `a`, 2 keeps only the second value of `a`. */
  lemma RepeatedKeyDict(items: seq<BValue>)
    requires items == [BStr([97]), BInt(1), BStr([97]), BInt(2)]
    ensures MakeDict(items) == Some(BDict([(BStr([97]), BInt(2))]))
  {
    var a := BStr([97]);
    var ps := [(a, BInt(1)), (a, BInt(2))];
    assert Pairs(items) == ps by {
      assert items[2..] == [a, BInt(2)];
      assert Pairs(items[2..]) == [(a, BInt(2))] by {
        assert items[2..][2..] == [];
      }
    }
    assert Build(ps) == [(a, BInt(2))] by {
      assert ps[..1] == [(a, BInt(1))];
      assert Build(ps[..1]) == [(a, BInt(1))] by {
        assert ps[..1][..0] == [];
      }
    }
  }

  /** A key given twice keeps its last value. */
  lemma RepeatedKeyLastWins(s: seq<byte>)
    requires IsRepeatedKey(s)
    ensures Decode(s) == Ok(Stored(BDict([(BStr([97]), BInt(2))])))
  {
    var items := [BStr([97]), BInt(1), BStr([97]), BInt(2)];
    var d := BDict([(BStr([97]), BInt(2))]);
    RepeatedKeyScope(s);
    RepeatedKeyDict(items);
    DictLetterNests(s, 0, [], 14, items, d);
    assert Scan(s, 14, [d]) == Ok(Exhausted([d]));
  }
}
