/** Integer and pointer formatting in place: the digit loops, the reversal, and
    the proof that they leave the numeral of the value in the buffer. */
module Formatting {
  import opened CArith
  import opened Numerals

  // ----- The digit tables -----

  /** Digits mirrored about index ZERO, so that a remainder of either sign
      selects the digit of its magnitude. */
  const MIRRORED: string := "9876543210123456789"
  const ZERO: nat := 9
  const HEX_TABLE: string := "0123456789ABCDEF"

  lemma MirroredDigit(lsd: int)
    requires -9 <= lsd <= 9
    ensures 0 <= ZERO + lsd < |MIRRORED|
    ensures MIRRORED[ZERO + lsd] == DigitChar(Abs(lsd))
  {
  }

  lemma HexDigit(lsd: nat)
    requires lsd < 16
    ensures |HEX_TABLE| == 16 && HEX_TABLE[lsd] == DigitChar(lsd)
  {
  }

  // ----- Reversal in place -----

  /** Two buffers of one length agree outside the positions lo up to hi. */
  ghost predicate Outside(now: string, before: string, lo: nat, hi: nat) {
    |now| == |before| && forall k :: 0 <= k < |now| && !(lo <= k < hi) ==> now[k] == before[k]
  }

  lemma OutsideBoth(first: string, second: string, third: string, lo: nat, mid: nat, hi: nat)
    requires Outside(second, first, lo, mid) && Outside(third, second, lo, hi) && mid <= hi
    ensures Outside(third, first, lo, hi)
  {
  }

  /** A buffer in which nothing but a terminated text was written. */
  ghost predicate Written(now: string, before: string, at: nat, text: string) {
    && at + |text| < |now|
    && now[at..at + |text|] == text && now[at + |text|] == '\0'
    && Outside(now, before, at, at + |text| + 1)
  }

  lemma WrittenAfter(first: string, second: string, third: string, at: nat, p: nat, text: string)
    requires Outside(second, first, at, p) && Written(third, second, at, text) && p == at + |text|
    ensures Written(third, first, at, text)
  {
  }

  lemma WrittenBehind(now: string, before: string, at: nat, text: string)
    requires Written(now, before, at, text)
    ensures now[..at + |text|] == before[..at] + text
  {
  }

  function Reversed(s: string): (r: string)
    ensures |r| == |s|
  {
    if s == [] then [] else Reversed(s[1..]) + [s[0]]
  }

  lemma {:induction false} ReversedAt(s: string, k: nat)
    requires k < |s|
    ensures Reversed(s)[k] == s[|s| - 1 - k]
  {
    if k < |s| - 1 {
      ReversedAt(s[1..], k);
    }
  }

  lemma {:induction false} ReversedSnoc(s: string, c: char)
    ensures Reversed(s + [c]) == [c] + Reversed(s)
  {
    if s == [] {
      assert [c] + Reversed(s) == [c];
    } else {
      assert (s + [c])[1..] == s[1..] + [c];
      ReversedSnoc(s[1..], c);
    }
  }

  lemma MirrorIsReversed(s: string, t: string)
    requires |s| == |t| && forall k :: 0 <= k < |s| ==> s[k] == t[|t| - 1 - k]
    ensures s == Reversed(t)
  {
    forall k | 0 <= k < |s| ensures s[k] == Reversed(t)[k] {
      ReversedAt(t, k);
    }
  }

  method ReverseRange(buf: array<char>, lo: nat, hi: nat)
    requires lo <= hi <= buf.Length
    modifies buf
    ensures buf[lo..hi] == Reversed(old(buf[lo..hi]))
    ensures Outside(buf[..], old(buf[..]), lo, hi)
  {
    var i, j := lo, hi;
    while i < j
      invariant lo <= i && j <= hi && i <= j + 1 && i - lo == hi - j
      invariant forall k :: lo <= k < i ==> buf[k] == old(buf[lo + hi - 1 - k])
      invariant forall k :: j <= k < hi ==> buf[k] == old(buf[lo + hi - 1 - k])
      invariant forall k :: i <= k < j ==> buf[k] == old(buf[k])
      invariant Outside(buf[..], old(buf[..]), lo, hi)
    {
      j := j - 1;
      buf[i], buf[j] := buf[j], buf[i];
      i := i + 1;
    }
    ghost var was, n := old(buf[lo..hi]), hi - lo;
    forall k | 0 <= k < n
      ensures buf[lo..hi][k] == was[n - 1 - k]
    {
      assert buf[lo + k] == old(buf[lo + hi - 1 - (lo + k)]);
    }
    MirrorIsReversed(buf[lo..hi], was);
  }

  // ----- Number formatting -----

  /** The part of a numeral that is still to be written when the remaining
      value has magnitude n; nothing once the digit loop has ended. */
  ghost function Pending(more: bool, n: nat, radix: Radix): string {
    if more then Numeral(n, radix) else ""
  }

  /** One turn of the digit loop moves the last pending digit over. */
  lemma DigitMoves(n: nat, radix: Radix, written: string)
    ensures var q := radix.Quotient(n);
      var next := written + [DigitChar(radix.Remainder(n))];
      && |Pending(true, n, radix)| == 1 + |Pending(q != 0, q, radix)|
      && Pending(true, n, radix) + Reversed(written) == Pending(q != 0, q, radix) + Reversed(next)
  {
    ReversedSnoc(written, DigitChar(radix.Remainder(n)));
  }

  lemma TruncByTen(i: int)
    ensures Abs(TruncDiv(i, 10)) == Abs(i) / 10
    ensures Abs(TruncMod(i, 10)) == Abs(i) % 10
    ensures if i < 0 then i <= TruncDiv(i, 10) <= 0 else 0 <= TruncDiv(i, 10) <= i
  {
  }

  /** The shared tail of both formatters: terminates the reversed text at p and
      turns it round. */
  method Terminate(buf: array<char>, at: nat, p: nat)
    requires at <= p < buf.Length
    modifies buf
    ensures Written(buf[..], old(buf[..]), at, Reversed(old(buf[at..p])))
  {
    ghost var text := buf[at..p];
    buf[p] := '\0';
    assert buf[at..p] == text;
    ReverseRange(buf, at, p);
    assert buf[p] == buf[..][p];
  }

  /** The digit loop: writes the digits of the magnitude, least significant
      first. The value itself is never negated: `i` only moves towards zero, so
      no width overflows, and the digit of a negative remainder comes out of
      the mirrored table. */
  method WriteDigits(buf: array<char>, at: nat, value: int) returns (p: nat)
    requires at + |Numeral(Abs(value), Ten)| < buf.Length
    modifies buf
    ensures p == at + |Numeral(Abs(value), Ten)|
    ensures Reversed(buf[at..p]) == Numeral(Abs(value), Ten)
    ensures Outside(buf[..], old(buf[..]), at, p)
  {
    var i, more := value, true;
    p := at;
    ghost var magnitude := Numeral(Abs(value), Ten);
    while more
      invariant at <= p
      invariant p - at + |Pending(more, Abs(i), Ten)| == |magnitude|
      invariant magnitude == Pending(more, Abs(i), Ten) + Reversed(buf[at..p])
      invariant if value < 0 then value <= i <= 0 else 0 <= i <= value
      invariant Outside(buf[..], old(buf[..]), at, p)
      decreases more, Abs(i)
    {
      var lsd := TruncMod(i, 10);
      DigitMoves(Abs(i), Ten, buf[at..p]);
      TruncByTen(i);
      MirroredDigit(lsd);
      ghost var written := buf[at..p];
      i := TruncDiv(i, 10);
      buf[p] := MIRRORED[ZERO + lsd];
      p := p + 1;
      more := i != 0;
      assert buf[at..p] == written + [DigitChar(Abs(lsd))];
    }
  }

  /** Formats a signed or unsigned integer at position `at` of the buffer. */
  method Convert(buf: array<char>, at: nat, value: int) returns (len: nat)
    requires at + |Decimal(value)| < buf.Length
    modifies buf
    ensures len == |Decimal(value)|
    ensures Written(buf[..], old(buf[..]), at, Decimal(value))
  {
    ghost var before := buf[..];
    var p := WriteDigits(buf, at, value);
    ghost var digits, mid := buf[..], p;
    p := WriteSign(buf, at, p, value);
    ghost var signed := buf[..];
    Terminate(buf, at, p);
    len := p - at;
    OutsideBoth(before, digits, signed, at, mid, p);
    WrittenAfter(before, signed, buf[..], at, p, Decimal(value));
  }

  method WriteSign(buf: array<char>, at: nat, p: nat, value: int) returns (next: nat)
    requires at <= p && p + (if value < 0 then 1 else 0) <= buf.Length
    requires Reversed(buf[at..p]) == Numeral(Abs(value), Ten)
    modifies buf
    ensures next == p + if value < 0 then 1 else 0
    ensures Reversed(buf[at..next]) == Decimal(value)
    ensures Outside(buf[..], old(buf[..]), at, next)
  {
    ghost var written := buf[at..p];
    SignedText(written, value);
    next := p;
    if value < 0 {
      buf[next] := '-';
      next := next + 1;
      assert buf[at..next] == written + ['-'];
    }
  }

  lemma SignedText(written: string, value: int)
    requires Reversed(written) == Numeral(Abs(value), Ten)
    ensures Reversed(if value < 0 then written + ['-'] else written) == Decimal(value)
  {
    ReversedSnoc(written, '-');
  }

  /** Formats a pointer value in upper-case hexadecimal. */
  method ConvertHex(buf: array<char>, at: nat, value: nat) returns (len: nat)
    requires at + |Numeral(value, Sixteen)| < buf.Length
    modifies buf
    ensures len == |Numeral(value, Sixteen)|
    ensures Written(buf[..], old(buf[..]), at, Numeral(value, Sixteen))
  {
    var i, p, more := value, at, true;
    ghost var numeral := Numeral(value, Sixteen);
    while more
      invariant at <= p
      invariant p - at + |Pending(more, i, Sixteen)| == |numeral|
      invariant numeral == Pending(more, i, Sixteen) + Reversed(buf[at..p])
      invariant Outside(buf[..], old(buf[..]), at, p)
      decreases more, i
    {
      var lsd := i % 16;
      DigitMoves(i, Sixteen, buf[at..p]);
      HexDigit(lsd);
      ghost var written := buf[at..p];
      i := i / 16;
      buf[p] := HEX_TABLE[lsd];
      p := p + 1;
      more := i != 0;
      assert buf[at..p] == written + [DigitChar(lsd)];
    }
    ghost var digits := buf[..];
    Terminate(buf, at, p);
    WrittenAfter(old(buf[..]), digits, buf[..], at, p, numeral);
    len := p - at;
  }

  /** The same behind "0x": what a pointer looks like. */
  method WritePointer(buf: array<char>, at: nat, value: nat) returns (len: nat)
    requires at + 2 + |Numeral(value, Sixteen)| < buf.Length
    modifies buf
    ensures len == 2 + |Numeral(value, Sixteen)|
    ensures buf[..at + len] == old(buf[..at]) + "0x" + Numeral(value, Sixteen)
    ensures Written(buf[..], old(buf[..]), at, "0x" + Numeral(value, Sixteen))
  {
    ghost var before := buf[..];
    buf[at] := '0';
    buf[at + 1] := 'x';
    ghost var prefixed := buf[..];
    assert prefixed[..at + 2] == before[..at] + "0x";
    len := ConvertHex(buf, at + 2, value);
    WrittenBehind(buf[..], prefixed, at + 2, Numeral(value, Sixteen));
    len := len + 2;
  }
}
