/**
  The token classes of the decoder's regular expression `([idle])|(\d+):|(-?\d+)`,
  matched byte by byte: a control letter, a string length prefix, or an integer.
 */
module Tokens {
  import opened Wrappers
  import opened BValues

  const INT: byte := 105    // 'i'
  const DICT: byte := 100   // 'd'
  const LIST: byte := 108   // 'l'
  const END: byte := 101    // 'e'
  const COLON: byte := 58   // ':'
  const MINUS: byte := 45   // '-'
  const ZERO: byte := 48    // '0'

  predicate IsDigit(b: byte)
  {
    ZERO <= b <= ZERO + 9
  }

  /** The letters of the group `[idle]`. */
  predicate IsControl(b: byte)
  {
    b == INT || b == DICT || b == LIST || b == END
  }

  predicate AllDigits(ds: seq<byte>)
  {
    forall k :: 0 <= k < |ds| ==> IsDigit(ds[k])
  }

  /** The end of the greedy `\d+` that starts at `i`: the first non-digit at or after `i`. */
  function DigitRunEnd(s: seq<byte>, i: nat): (j: nat)
    requires i <= |s|
    ensures i <= j <= |s|
    ensures j < |s| ==> !IsDigit(s[j])
    decreases |s| - i
  {
    if i < |s| && IsDigit(s[i]) then DigitRunEnd(s, i + 1) else i
  }

  /** Everything from `i` up to the end of the run is a digit. */
  lemma {:induction false} DigitRun(s: seq<byte>, i: nat)
    requires i <= |s|
    ensures AllDigits(s[i..DigitRunEnd(s, i)])
    decreases |s| - i
  {
    if i < |s| && IsDigit(s[i]) {
      DigitRun(s, i + 1);
      assert s[i..DigitRunEnd(s, i)] == [s[i]] + s[i + 1..DigitRunEnd(s, i)];
    }
  }

  /** The value of one decimal digit. */
  function DigitValue(b: byte): nat
  {
    if IsDigit(b) then b - ZERO else 0
  }

  /** `int(m_str)` on a run of ASCII digits (leading zeros allowed). */
  function DigitsValue(ds: seq<byte>): nat
    decreases |ds|
  {
    if ds == [] then 0 else DigitsValue(ds[..|ds| - 1]) * 10 + DigitValue(ds[|ds| - 1])
  }

  /** `str(n)` for a non-negative integer: its decimal digits, without leading zeros. */
  function ToDigits(n: nat): (ds: seq<byte>)
    ensures ds != [] && AllDigits(ds)
    ensures ds[0] == ZERO ==> n == 0
  {
    if n < 10 then [ZERO + n] else ToDigits(n / 10) + [ZERO + n % 10]
  }

  /** `str(n)` for any integer: a minus sign before the digits of a negative number. */
  function SignedDigits(n: int): seq<byte>
  {
    if n < 0 then [MINUS] + ToDigits(-n) else ToDigits(n)
  }

  /** The decimal text of an integer is never empty and starts with `-` exactly when it is negative. */
  lemma SignedDigitsSign(n: int)
    ensures SignedDigits(n) != [] && (n < 0 <==> SignedDigits(n)[0] == MINUS)
  {
  }

  /** Reading back the decimal digits of `n` gives `n`. */
  lemma {:induction false} DigitsRoundTrip(n: nat)
    ensures DigitsValue(ToDigits(n)) == n
  {
    if n >= 10 {
      DigitsRoundTrip(n / 10);
      var ds := ToDigits(n);
      assert ds[..|ds| - 1] == ToDigits(n / 10);
    }
  }

  /** A maximal digit run placed at `i` is exactly what the greedy `\d+` consumes. */
  lemma RunEnd(s: seq<byte>, i: nat, ds: seq<byte>)
    requires AllDigits(ds)
    requires i + |ds| <= |s| && s[i..i + |ds|] == ds
    requires i + |ds| < |s| ==> !IsDigit(s[i + |ds|])
    ensures DigitRunEnd(s, i) == i + |ds|
    decreases |ds|
  {
    if ds != [] {
      assert s[i] == ds[0];
      assert s[i + 1..i + |ds|] == ds[1..];
      RunEnd(s, i + 1, ds[1..]);
    }
  }

  datatype Token =
    | Control(letter: byte)   // group 1: one of i, d, l, e
    | Length(n: nat)          // group 2: digits followed by ':'
    | Integer(value: int)     // group 3: an optional '-' and digits

  /**
    `reg.match(string, i)`: the token at `i` and where the match ends, tried in
    the order of the alternatives; None where Python's match is None.
   */
  function MatchToken(s: seq<byte>, i: nat): (r: Option<(Token, nat)>)
    requires i < |s|
    ensures r.Some? ==> i < r.value.1 <= |s|
  {
    if IsControl(s[i]) then Some((Control(s[i]), i + 1))
    else if IsDigit(s[i]) then
      var j := DigitRunEnd(s, i);
      if j < |s| && s[j] == COLON then Some((Length(DigitsValue(s[i..j])), j + 1))
      else Some((Integer(DigitsValue(s[i..j])), j))
    else if s[i] == MINUS && i + 1 < |s| && IsDigit(s[i + 1]) then
      var j := DigitRunEnd(s, i + 1);
      Some((Integer(-(DigitsValue(s[i + 1..j]) as int)), j))
    else None
  }

  /**
    The alternatives in order: a letter of `[idle]` is a one-byte control token,
    and there is no token exactly when the byte is neither a letter, nor a digit,
    nor a minus sign followed by a digit.
   */
  lemma MatchTokenCases(s: seq<byte>, i: nat)
    requires i < |s|
    ensures MatchToken(s, i).None? <==>
      !IsControl(s[i]) && !IsDigit(s[i]) && !(s[i] == MINUS && i + 1 < |s| && IsDigit(s[i + 1]))
    ensures IsControl(s[i]) ==> MatchToken(s, i) == Some((Control(s[i]), i + 1))
    ensures IsDigit(s[i]) ==> MatchToken(s, i).Some? && !MatchToken(s, i).value.0.Control?
  {
  }

  /** `<digits>:` is a length prefix: its value, and the match ends just past the colon. */
  lemma MatchLengthPrefix(s: seq<byte>, i: nat, ds: seq<byte>)
    requires ds != [] && AllDigits(ds)
    requires i + |ds| < |s| && s[i..i + |ds|] == ds && s[i + |ds|] == COLON
    ensures MatchToken(s, i) == Some((Length(DigitsValue(ds)), i + |ds| + 1))
  {
    assert s[i] == ds[0];
    RunEnd(s, i, ds);
    var j := DigitRunEnd(s, i);
    assert s[i..j] == ds;
  }

  /** `<digits>` not followed by a digit or ':' is an integer token whose match ends after the digits. */
  lemma MatchNonNegative(s: seq<byte>, i: nat, ds: seq<byte>)
    requires ds != [] && AllDigits(ds)
    requires i + |ds| <= |s| && s[i..i + |ds|] == ds
    requires i + |ds| < |s| ==> !IsDigit(s[i + |ds|]) && s[i + |ds|] != COLON
    ensures MatchToken(s, i) == Some((Integer(DigitsValue(ds)), i + |ds|))
  {
    assert s[i] == ds[0];
    RunEnd(s, i, ds);
    var j := DigitRunEnd(s, i);
    assert s[i..j] == ds;
  }

  /** `-<digits>` is a negative integer token whose match ends after the digits, whatever follows. */
  lemma MatchNegative(s: seq<byte>, i: nat, ds: seq<byte>)
    requires ds != [] && AllDigits(ds)
    requires i + 1 + |ds| <= |s| && s[i + 1..i + 1 + |ds|] == ds && s[i] == MINUS
    requires i + 1 + |ds| < |s| ==> !IsDigit(s[i + 1 + |ds|])
    ensures MatchToken(s, i) == Some((Integer(-(DigitsValue(ds) as int)), i + 1 + |ds|))
  {
    assert s[i + 1] == ds[0];
    RunEnd(s, i + 1, ds);
    NegativeBranch(s, i);
  }

  /** A minus sign followed by a digit: the third alternative, whatever follows the digits. */
  lemma NegativeBranch(s: seq<byte>, i: nat)
    requires i + 1 < |s| && s[i] == MINUS && IsDigit(s[i + 1])
    ensures var j := DigitRunEnd(s, i + 1);
      MatchToken(s, i) == Some((Integer(-(DigitsValue(s[i + 1..j]) as int)), j))
  {
  }


}
