/**
 * Decimal text of integers: the digits C# string interpolation writes for an
 * `int` (used for the automatic room ids and the persistence keys), and a
 * simplified `int.TryParse` (used to read a spawn entry's numeric NPC type).
 */
module Decimal {
  import opened Wrappers

  const Int32Min: int := -0x8000_0000
  const Int32Max: int := 0x7FFF_FFFF

  predicate IsDigit(c: char) {
    '0' <= c <= '9'
  }

  predicate AllDigits(s: string) {
    forall i :: 0 <= i < |s| ==> IsDigit(s[i])
  }

  function DigitChar(d: nat): (c: char)
    requires d < 10
    ensures IsDigit(c)
  {
    (d + '0' as int) as char
  }

  function DigitValue(c: char): (d: nat)
    requires IsDigit(c)
    ensures d < 10 && DigitChar(d) == c
  {
    c as int - '0' as int
  }

  /**
   * The number a string of decimal digits denotes, most significant digit
   * first, or None when some character is not a digit. The empty string
   * denotes 0; ParseInt rules it out before calling this.
   */
  function ParseDigits(s: string): Option<nat>
    decreases |s|
  {
    if s == [] then Some(0)
    else match ParseDigits(s[..|s| - 1])
      case None => None
      case Some(v) => if IsDigit(s[|s| - 1]) then Some(v * 10 + DigitValue(s[|s| - 1])) else None
  }

  /** ParseDigits accepts exactly the strings made of digits only. */
  lemma {:induction false} ParseDigitsAccepts(s: string)
    ensures ParseDigits(s).Some? <==> AllDigits(s)
    decreases |s|
  {
    if s != [] {
      var init := s[..|s| - 1];
      ParseDigitsAccepts(init);
      assert forall i | 0 <= i < |init| :: init[i] == s[i];
    }
  }

  /** A non-digit anywhere makes the whole string fail. */
  lemma {:induction false} NonDigitRejected(s: string, i: nat)
    requires i < |s| && !IsDigit(s[i])
    ensures ParseDigits(s) == None
    decreases |s|
  {
    if i < |s| - 1 {
      NonDigitRejected(s[..|s| - 1], i);
    }
  }

  /** The shortest decimal text of `n`, as `$"{n}"` writes it. */
  function NatToString(n: nat): (s: string)
    ensures |s| > 0 && AllDigits(s)
    ensures |s| > 1 ==> s[0] != '0'
    decreases n
  {
    if n < 10 then [DigitChar(n)] else NatToString(n / 10) + [DigitChar(n % 10)]
  }

  /** Decimal text of any integer, with a leading '-' when negative. */
  function IntToString(n: int): (s: string)
    ensures |s| > 0
    ensures n < 0 <==> s[0] == '-'
  {
    if n < 0 then "-" + NatToString(-n) else NatToString(n)
  }

  /**
   * A 32-bit integer literal: an optional '-' or '+' sign followed by one or
   * more decimal digits, whose value fits in an `int`; anything else fails.
   */
  function ParseInt(s: string): (r: Option<int>)
    ensures r.Some? ==> Int32Min <= r.value <= Int32Max
  {
    var negative := |s| > 0 && s[0] == '-';
    var digits := if |s| > 0 && (s[0] == '-' || s[0] == '+') then s[1..] else s;
    if digits == [] then None
    else match ParseDigits(digits)
      case None => None
      case Some(d) =>
        var v: int := if negative then -(d as int) else d;
        if Int32Min <= v <= Int32Max then Some(v) else None
  }

  /** Reading back the decimal text of a natural number gives that number. */
  lemma {:induction false} NatToStringValue(n: nat)
    ensures ParseDigits(NatToString(n)) == Some(n)
    decreases n
  {
    var s := NatToString(n);
    if n >= 10 {
      NatToStringValue(n / 10);
      assert s[..|s| - 1] == NatToString(n / 10);
    }
  }

  /** Distinct numbers have distinct decimal texts. */
  lemma NatToStringInjective(a: nat, b: nat)
    ensures NatToString(a) == NatToString(b) ==> a == b
  {
    NatToStringValue(a);
    NatToStringValue(b);
  }

  /** ParseInt reads back every 32-bit integer written by IntToString. */
  lemma ParseIntToString(n: int)
    requires Int32Min <= n <= Int32Max
    ensures ParseInt(IntToString(n)) == Some(n)
  {
    var s := IntToString(n);
    if n < 0 {
      NatToStringValue(-n);
      assert s[1..] == NatToString(-n);
    } else {
      NatToStringValue(n);
    }
  }

  /** A leading '+', leading zeros and a negative zero are all accepted. */
  lemma ParseIntNonCanonical()
    ensures ParseInt("+5") == Some(5) && ParseInt("007") == Some(7) && ParseInt("-0") == Some(0)
  {
    assert "5"[..0] == [] && "0"[..0] == [];
    assert ParseDigits("5") == Some(5) && ParseDigits("0") == Some(0);
    assert "+5"[1..] == "5" && "-0"[1..] == "0";
    assert "007"[..2] == "00" && "00"[..1] == "0";
    assert ParseDigits("00") == Some(0);
  }

  /** A text that begins with something other than a sign or a digit is not a number. */
  lemma NameIsNotNumber(s: string)
    requires |s| > 0 && !IsDigit(s[0]) && s[0] != '-' && s[0] != '+'
    ensures ParseInt(s) == None
  {
    NonDigitRejected(s, 0);
  }

}
