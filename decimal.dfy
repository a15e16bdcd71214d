/**
 * PHP's conversion of an integer to its decimal text (what `.` concatenation and
 * `implode` do to an int), together with the reading back of that text.
 */
module Decimal {
  import opened Wrappers

  predicate IsDigit(c: char) {
    '0' <= c <= '9'
  }

  predicate AllDigits(s: string) {
    forall i :: 0 <= i < |s| ==> IsDigit(s[i])
  }

  function DigitChar(d: nat): (c: char)
    requires d < 10
    ensures IsDigit(c)
  {
    (('0' as int) + d) as char
  }

  function DigitValue(c: char): (d: nat)
    requires IsDigit(c)
    ensures d < 10
  {
    (c as int) - ('0' as int)
  }

  /** Decimal digits of a non-negative integer, most significant first, no leading zero. */
  function NatToDecimal(n: nat): (s: string)
    ensures |s| > 0 && AllDigits(s)
    ensures |s| > 1 ==> s[0] != '0'
  {
    if n < 10 then [DigitChar(n)] else NatToDecimal(n / 10) + [DigitChar(n % 10)]
  }

  /** PHP's string form of an int: a minus sign for negative values, then the digits. */
  function IntToDecimal(n: int): (s: string)
    ensures |s| > 0
    ensures s[0] == '-' <==> n < 0
    ensures n >= 0 ==> AllDigits(s)
    ensures n < 0 ==> AllDigits(s[1..]) && |s| > 1
  {
    if n < 0 then "-" + NatToDecimal(-n) else NatToDecimal(n)
  }

  /** The value of a run of decimal digits. */
  function DigitsValue(s: string): nat
    requires AllDigits(s)
  {
    if s == [] then 0 else DigitsValue(s[..|s| - 1]) * 10 + DigitValue(s[|s| - 1])
  }

  /** Reads an integer literal: an optional minus sign followed by at least one digit. */
  function ParseInt(s: string): Option<int> {
    if |s| > 1 && s[0] == '-' && AllDigits(s[1..]) then Some(-(DigitsValue(s[1..]) as int))
    else if |s| > 0 && AllDigits(s) then Some(DigitsValue(s))
    else None
  }

  lemma {:induction false} NatToDecimalRoundTrip(n: nat)
    ensures DigitsValue(NatToDecimal(n)) == n
  {
    if n >= 10 {
      NatToDecimalRoundTrip(n / 10);
      var s := NatToDecimal(n);
      assert s[..|s| - 1] == NatToDecimal(n / 10);
    }
  }

  /** Reading back the text of any integer gives that integer. */
  lemma IntToDecimalRoundTrip(n: int)
    ensures ParseInt(IntToDecimal(n)) == Some(n)
  {
    if n < 0 {
      NatToDecimalRoundTrip(-n);
      assert IntToDecimal(n)[1..] == NatToDecimal(-n);
    } else {
      NatToDecimalRoundTrip(n);
    }
  }

  /** Distinct integers print differently. */
  lemma IntToDecimalInjective(a: int, b: int)
    ensures IntToDecimal(a) == IntToDecimal(b) ==> a == b
  {
    IntToDecimalRoundTrip(a);
    IntToDecimalRoundTrip(b);
  }

  /** PHP `implode(',', $ids)` over integers. */
  function ImplodeInts(ids: seq<int>): (s: string)
    ensures ids == [] <==> s == []
  {
    if ids == [] then ""
    else if |ids| == 1 then IntToDecimal(ids[0])
    else IntToDecimal(ids[0]) + "," + ImplodeInts(ids[1..])
  }

  // Reading back a comma-joined id list.

  /** The position of the first ',' in `s`, or its length when there is none. */
  function CommaIndex(s: string): (k: nat)
    ensures k <= |s|
    ensures k < |s| ==> s[k] == ','
    ensures forall i :: 0 <= i < k ==> s[i] != ','
  {
    if s == [] || s[0] == ',' then 0 else 1 + CommaIndex(s[1..])
  }

  /** Reads a non-empty comma-separated list of integer literals. */
  function ParseIntList(s: string): Option<seq<int>>
    decreases |s|
  {
    var k := CommaIndex(s);
    match ParseInt(s[..k])
    case None => None
    case Some(v) =>
      if k == |s| then Some([v])
      else
        match ParseIntList(s[k + 1..])
        case None => None
        case Some(vs) => Some([v] + vs)
  }

  /** Reads a comma-separated list of integer literals; the empty text is the empty list. */
  function ParseInts(s: string): Option<seq<int>> {
    if s == [] then Some([]) else ParseIntList(s)
  }

  /** An integer's text holds no comma. */
  lemma NoComma(n: int)
    ensures forall i :: 0 <= i < |IntToDecimal(n)| ==> IntToDecimal(n)[i] != ','
  {
    var s := IntToDecimal(n);
    if n < 0 {
      forall i | 1 <= i < |s| ensures s[i] != ',' {
        assert s[i] == s[1..][i - 1];
      }
    }
  }

  /** The first comma after a comma-free text is the one that follows it. */
  lemma CommaAfter(x: string, rest: string)
    requires forall i :: 0 <= i < |x| ==> x[i] != ','
    ensures CommaIndex(x) == |x|
    ensures CommaIndex(x + "," + rest) == |x|
  {
    var s := x + "," + rest;
    assert s[|x|] == ',';
    assert forall i :: 0 <= i < |x| ==> s[i] == x[i];
  }

  /** The id list of an `IN (...)` test reads back as the ids themselves, in order. */
  lemma {:induction false} ImplodeIntsRoundTrip(ids: seq<int>)
    ensures ParseInts(ImplodeInts(ids)) == Some(ids)
  {
    if ids != [] {
      var x := IntToDecimal(ids[0]);
      NoComma(ids[0]);
      IntToDecimalRoundTrip(ids[0]);
      if |ids| == 1 {
        CommaAfter(x, "");
        assert x[..|x|] == x;
        assert ParseIntList(x) == Some([ids[0]]);
        assert ids == [ids[0]];
      } else {
        var rest := ImplodeInts(ids[1..]);
        var s := x + "," + rest;
        CommaAfter(x, rest);
        assert s[..|x|] == x;
        assert s[|x| + 1..] == rest;
        ImplodeIntsRoundTrip(ids[1..]);
        assert ParseIntList(rest) == Some(ids[1..]);
        assert ParseIntList(s) == Some([ids[0]] + ids[1..]);
        assert [ids[0]] + ids[1..] == ids;
      }
    }
  }

  /** Distinct id lists give distinct `IN (...)` texts. */
  lemma ImplodeIntsInjective(a: seq<int>, b: seq<int>)
    ensures ImplodeInts(a) == ImplodeInts(b) ==> a == b
  {
    ImplodeIntsRoundTrip(a);
    ImplodeIntsRoundTrip(b);
  }
}
