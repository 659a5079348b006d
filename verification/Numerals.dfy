/** Positional numerals in bases ten and sixteen: the text of a number, an
    independent parser for such text, and the proof that the two are inverse
    on canonical text. */
module Numerals {
  import opened CArith
  import opened Wrappers

  /** The two bases. Each operation names its constant, so that all the
      arithmetic below is linear. */
  datatype Radix = Ten | Sixteen {
    function Size(): nat { if Ten? then 10 else 16 }
    function Times(q: nat): nat { if Ten? then 10 * q else 16 * q }
    function Quotient(n: nat): nat { if Ten? then n / 10 else n / 16 }
    function Remainder(n: nat): nat { if Ten? then n % 10 else n % 16 }
  }

  function DigitChar(d: nat): char
    requires d < 16
  {
    if d < 10 then '0' + d as char else 'A' + (d - 10) as char
  }

  /** The numeral of n, most significant digit first. */
  function Numeral(n: nat, radix: Radix): (s: string)
    ensures s != []
    decreases n
  {
    if n < radix.Size() then [DigitChar(n)]
    else Numeral(radix.Quotient(n), radix) + [DigitChar(radix.Remainder(n))]
  }

  /** The decimal text of an integer. */
  function Decimal(v: int): (s: string)
    ensures s != []
  {
    if v < 0 then "-" + Numeral(-v, Ten) else Numeral(v, Ten)
  }

  function DigitValue(c: char, radix: Radix): Option<nat> {
    if '0' <= c <= '9' then Some(c as int - '0' as int)
    else if radix.Sixteen? && 'A' <= c <= 'F' then Some(c as int - 'A' as int + 10)
    else None
  }

  /** Reads a non-empty string of digits by Horner's rule. */
  function ParseNat(s: string, radix: Radix): Option<nat> {
    if s == [] then None
    else
      var last := DigitValue(s[|s| - 1], radix);
      if last.None? then None
      else if |s| == 1 then last
      else
        var front := ParseNat(s[..|s| - 1], radix);
        if front.None? then None else Some(radix.Times(front.value) + last.value)
  }

  function ParseInt(s: string): Option<int> {
    if s != [] && s[0] == '-' then
      var magnitude := ParseNat(s[1..], Ten);
      if magnitude.None? then None else Some(-(magnitude.value as int))
    else
      var magnitude := ParseNat(s, Ten);
      if magnitude.None? then None else Some(magnitude.value)
  }

  /** Digits only, and no leading zero unless the text is "0". */
  predicate Canonical(s: string, radix: Radix) {
    && s != []
    && (forall k :: 0 <= k < |s| ==> DigitValue(s[k], radix).Some?)
    && (s[0] == '0' ==> |s| == 1)
  }

  /** A canonical numeral, with a minus sign only in front of a non-zero one. */
  predicate CanonicalInt(s: string) {
    if s != [] && s[0] == '-' then Canonical(s[1..], Ten) && s[1..] != "0"
    else Canonical(s, Ten)
  }

  /** The number of values that k digits can write. */
  function Values(radix: Radix, k: nat): nat {
    if k == 0 then 1 else radix.Times(Values(radix, k - 1))
  }

  lemma DigitReads(d: nat, radix: Radix)
    requires d < radix.Size()
    ensures DigitValue(DigitChar(d), radix) == Some(d) && (DigitChar(d) == '0' <==> d == 0)
  {
  }

  lemma ParseExtends(front: string, last: char, radix: Radix)
    requires front != [] && ParseNat(front, radix).Some? && DigitValue(last, radix).Some?
    ensures ParseNat(front + [last], radix)
         == Some(radix.Times(ParseNat(front, radix).value) + DigitValue(last, radix).value)
  {
  }

  lemma CanonicalExtends(front: string, last: char, radix: Radix)
    requires Canonical(front, radix) && front[0] != '0' && DigitValue(last, radix).Some?
    ensures Canonical(front + [last], radix) && (front + [last])[0] == front[0]
  {
  }

  /** Printing then parsing gives the number back, and the text is canonical. */
  lemma {:induction false} NumeralRoundTrip(n: nat, radix: Radix)
    ensures ParseNat(Numeral(n, radix), radix) == Some(n)
    ensures Canonical(Numeral(n, radix), radix)
    ensures Numeral(n, radix)[0] == '0' <==> n == 0
    decreases n
  {
    if n < radix.Size() {
      DigitReads(n, radix);
    } else {
      var q, d := radix.Quotient(n), radix.Remainder(n);
      NumeralRoundTrip(q, radix);
      DigitReads(d, radix);
      ParseExtends(Numeral(q, radix), DigitChar(d), radix);
      CanonicalExtends(Numeral(q, radix), DigitChar(d), radix);
    }
  }

  lemma DigitInverts(c: char, radix: Radix)
    requires DigitValue(c, radix).Some?
    ensures var d := DigitValue(c, radix).value;
      d < radix.Size() && DigitChar(d) == c && (d == 0 ==> c == '0')
  {
  }

  /** Appending a digit to the numeral of a non-zero number is a Horner step. */
  lemma NumeralExtends(q: nat, d: nat, radix: Radix)
    requires 1 <= q && d < radix.Size()
    ensures Numeral(radix.Times(q) + d, radix) == Numeral(q, radix) + [DigitChar(d)]
  {
  }

  lemma CanonicalFront(front: string, last: char, radix: Radix)
    requires front != [] && Canonical(front + [last], radix)
    ensures Canonical(front, radix) && front[0] != '0' && DigitValue(last, radix).Some?
  {
    var s := front + [last];
    assert s[0] == front[0] && s[|front|] == last;
    forall k | 0 <= k < |front| ensures DigitValue(front[k], radix).Some? {
      assert s[k] == front[k];
    }
  }

  /** Parsing then printing gives canonical text back: each number has exactly
      one canonical numeral. */
  lemma {:induction false} NumeralUnique(s: string, radix: Radix)
    requires Canonical(s, radix)
    ensures ParseNat(s, radix).Some?
    ensures Numeral(ParseNat(s, radix).value, radix) == s
    decreases |s|
  {
    var front, last := s[..|s| - 1], s[|s| - 1];
    assert s == front + [last];
    if front == [] {
      DigitInverts(last, radix);
    } else {
      CanonicalFront(front, last, radix);
      NumeralUnique(front, radix);
      UniqueExtends(front, last, radix);
    }
  }

  lemma UniqueExtends(front: string, last: char, radix: Radix)
    requires front != [] && front[0] != '0' && DigitValue(last, radix).Some?
    requires ParseNat(front, radix).Some? && Numeral(ParseNat(front, radix).value, radix) == front
    ensures ParseNat(front + [last], radix).Some?
    ensures Numeral(ParseNat(front + [last], radix).value, radix) == front + [last]
  {
    var q, d := ParseNat(front, radix).value, DigitValue(last, radix).value;
    NumeralRoundTrip(q, radix);
    ParseExtends(front, last, radix);
    DigitInverts(last, radix);
    NumeralExtends(q, d, radix);
  }

  /** A numeral has at most k digits exactly when the number is one of the
      values that k digits can write. */
  lemma {:induction false} NumeralLength(n: nat, radix: Radix, k: nat)
    requires 1 <= k
    ensures |Numeral(n, radix)| <= k <==> n < Values(radix, k)
    decreases n
  {
    ValuesPositive(radix, k - 1);
    if n >= radix.Size() && k > 1 {
      NumeralLength(radix.Quotient(n), radix, k - 1);
    }
  }

  lemma {:induction false} ValuesPositive(radix: Radix, k: nat)
    ensures 1 <= Values(radix, k)
  {
    if k > 0 {
      ValuesPositive(radix, k - 1);
    }
  }

  /** The decimal text of every integer parses back to it and is canonical;
      it starts with a minus sign exactly when the integer is negative. */
  lemma DecimalRoundTrip(v: int)
    ensures ParseInt(Decimal(v)) == Some(v)
    ensures CanonicalInt(Decimal(v))
    ensures Decimal(v)[0] == '-' <==> v < 0
  {
    NumeralRoundTrip(Abs(v), Ten);
    var s := Numeral(Abs(v), Ten);
    assert DigitValue(s[0], Ten).Some?;
    if v < 0 {
      assert Decimal(v)[1..] == s;
    }
  }

  /** Decimal is the only canonical text of an integer. */
  lemma DecimalUnique(s: string)
    requires CanonicalInt(s)
    ensures ParseInt(s).Some?
    ensures Decimal(ParseInt(s).value) == s
  {
    if s[0] == '-' {
      NumeralUnique(s[1..], Ten);
      assert s == "-" + s[1..];
    } else {
      NumeralUnique(s, Ten);
    }
  }

  /** Every 64-bit integer, signed or unsigned, prints in at most 20 characters. */
  lemma DecimalLength(v: int)
    requires -0x8000_0000_0000_0000 <= v <= 0xFFFF_FFFF_FFFF_FFFF
    ensures |Decimal(v)| <= 20
  {
    assert Values(Ten, 20) == 100_000_000_000_000_000_000 && Values(Ten, 19) == 10_000_000_000_000_000_000 by {
      assert Values(Ten, 5) == 100_000;
      assert Values(Ten, 10) == 10_000_000_000;
      assert Values(Ten, 15) == 1_000_000_000_000_000;
    }
    NumeralLength(Abs(v), Ten, if v < 0 then 19 else 20);
  }

  /** Every 64-bit pointer value prints in at most 16 hexadecimal digits. */
  lemma HexLength(v: nat)
    requires v <= 0xFFFF_FFFF_FFFF_FFFF
    ensures |Numeral(v, Sixteen)| <= 16
  {
    assert Values(Sixteen, 16) == 0x1_0000_0000_0000_0000 by {
      assert Values(Sixteen, 4) == 0x1_0000;
      assert Values(Sixteen, 8) == 0x1_0000_0000;
      assert Values(Sixteen, 12) == 0x1_0000_0000_0000;
    }
    NumeralLength(v, Sixteen, 16);
  }
}
