/** UART baud-rate synthesis: the divider arithmetic of UrtCfg, the registers it
    writes, and how close the generated rate is to the requested one. */
module Uart {
  import opened Bits

  newtype int32 = x: int | -0x8000_0000 <= x < 0x8000_0000

  /** The system clock in hertz. */
  const CLOCK: nat := 16_000_000

  // ----- The clock divider -----

  predicate IsDivider(d: int) {
    d in {1, 2, 4, 8, 16, 32, 64, 128, 256}
  }

  /** What the clock hardware divides by: two to the number in bits 11..9 of CLKCON1,
      and once more by two if bit 0 of CLKSYSDIV is set. */
  function HardwareDivider(clkcon1: bv16, clksysdiv: bv16): (d: nat)
    ensures IsDivider(d)
  {
    PowersAreDividers(((clkcon1 >> 9) & 7) as nat + (clksysdiv & 1) as nat);
    Pow2(((clkcon1 >> 9) & 7) as nat + (clksysdiv & 1) as nat)
  }

  lemma PowersAreDividers(n: nat)
    requires n <= 8
    ensures IsDivider(Pow2(n))
  {
    assert Pow2(2) == 4 && Pow2(4) == 16 && Pow2(6) == 64 && Pow2(8) == 256;
  }

  /** The total divider in front of the UART: the three CLKCON1 bits 11..9 give a
      power of two, which the low bit of CLKSYSDIV doubles. */
  function TotalDivider(clkcon1: bv16, clksysdiv: bv16): (d: nat)
    ensures IsDivider(d)
  {
    var select := (clkcon1 & 0x0E00) >> 9;
    var power :=
      if select == 0 then 1 else if select == 1 then 2 else if select == 2 then 4
      else if select == 3 then 8 else if select == 4 then 16 else if select == 5 then 32
      else if select == 6 then 64 else 128;
    if clksysdiv & 1 == 1 then 2 * power else power
  }

  /** The code decodes the divider as the hardware applies it, for all settings. */
  lemma DividerIsTheHardwares(clkcon1: bv16, clksysdiv: bv16)
    ensures TotalDivider(clkcon1, clksysdiv) == HardwareDivider(clkcon1, clksysdiv)
  {
    var select := (clkcon1 >> 9) & 7;
    assert (clkcon1 & 0x0E00) >> 9 == select;
    assert Pow2(2) == 4 && Pow2(4) == 16 && Pow2(6) == 64 && Pow2(8) == 256;
  }

  // ----- The two computed quantities -----

  /** Integer division, by its defining property. */
  function Div(a: nat, b: nat): (q: nat)
    requires 1 <= b
    ensures b * q <= a < b * (q + 1)
    ensures q <= a
  {
    DivBounds(a, b);
    a / b
  }

  /** The clock after the divider and the fixed division by 32. */
  function BitClock(d: nat): nat
    requires IsDivider(d)
  {
    CLOCK / (32 * d)
  }

  /** The integer divider. */
  function Divisor(d: nat, baud: nat): nat
    requires IsDivider(d) && 1 <= baud
  {
    Div(BitClock(d), baud)
  }

  /** 2048 times the clock after the same divisions, as far as the integer
      arithmetic of the original carries it. */
  function ScaledClock(d: nat): nat
    requires IsDivider(d)
  {
    2048 / (32 * d) * CLOCK
  }

  /** The fractional divider: 2048 times the ratio that is left to divide by. */
  function Ratio(d: nat, baud: nat): nat
    requires IsDivider(d) && 1 <= baud && 1 <= Divisor(d, baud)
  {
    Div(Div(ScaledClock(d), Divisor(d, baud)), baud)
  }

  /** What a 16-bit register keeps of a value. */
  function Low16(x: int): nat {
    x % 0x1_0000
  }

  /** `x | bit` for a mask of one bit. */
  function WithBit(x: nat, bit: nat): nat
    requires 1 <= bit
  {
    if x / bit % 2 == 1 then x else x + bit
  }

  /** `0x8800 | n` in a 16-bit register: the mask is the enable bit 15 and the
      low bit 11 of the field M. */
  function FractionWord(n: int): nat {
    WithBit(WithBit(Low16(n), 0x800), 0x8000)
  }

  /** The two registers that the routine writes. */
  function ComDiv(d: nat, baud: nat): nat
    requires IsDivider(d) && 1 <= baud
  {
    Low16(Divisor(d, baud))
  }

  function ComFbr(d: nat, baud: nat): nat
    requires IsDivider(d) && 1 <= baud && 1 <= Divisor(d, baud)
  {
    FractionWord(Ratio(d, baud) - 2048)
  }

  // ----- The hardware's reading of the registers -----

  function FieldM(comfbr: nat): nat { comfbr / 0x800 % 4 }

  function FieldN(comfbr: nat): nat { comfbr % 0x800 }

  predicate FractionEnabled(comfbr: nat) { comfbr / 0x8000 % 2 == 1 }

  /** The rate generated from the divided clock:
      clock / (32 * d * COMDIV * (M + N / 2048)). */
  function GeneratedBaud(d: nat, comdiv: nat, m: nat, n: nat): real
    requires 1 <= d && 1 <= comdiv && 1 <= m
  {
    ProductPositive(32 * d, comdiv);
    ProductPositive(32 * d * comdiv, 2048 * m + n);
    (2048 * CLOCK) as real / (32 * d * comdiv * (2048 * m + n)) as real
  }

  /** The registers generate at least the requested rate, and less than one part in
      2048 above it. */
  predicate JustFast(d: nat, comdiv: nat, comfbr: nat, baud: nat)
    requires 1 <= d
  {
    && comdiv != 0 && FieldM(comfbr) != 0
    && baud as real <= GeneratedBaud(d, comdiv, FieldM(comfbr), FieldN(comfbr)) < JustAbove(baud)
  }

  /** The registers generate no rate, or one below both or not below either. */
  predicate RateOutside(d: nat, comdiv: nat, comfbr: nat, low: real, high: real)
    requires 1 <= d
  {
    comdiv != 0 && FieldM(comfbr) != 0 ==>
      var rate := GeneratedBaud(d, comdiv, FieldM(comfbr), FieldN(comfbr));
      rate < low || high <= rate
  }

  /** The rate is the requested one, give or take a fraction e of it. */
  predicate Accurate(d: nat, comdiv: nat, comfbr: nat, baud: nat, e: real)
    requires 1 <= d
  {
    && comdiv != 0 && FieldM(comfbr) != 0
    && var rate := GeneratedBaud(d, comdiv, FieldM(comfbr), FieldN(comfbr));
       baud as real * (1.0 - e) <= rate <= baud as real * (1.0 + e)
  }

  /** From one part in 2048 to a third. */
  predicate IsTolerance(e: real) {
    1.0 / 2048.0 <= e <= 1.0 / 3.0
  }

  /** One part in 2048 above a rate, two thirds of it, and twice the rate. */
  function JustAbove(baud: nat): real { baud as real * (2049.0 / 2048.0) }
  function TwoThirds(baud: nat): real { baud as real * (2.0 / 3.0) }
  function Twice(baud: nat): real { 2.0 * baud as real }

  // ----- The configuration routine -----

  class Port {
    var comdiv: nat
    var comfbr: nat
    var comien: bv16
    var comlcr: bv16
    var comlsr: bv16

    /** Every intermediate value is an `int32`, so the 32-bit arithmetic of the
        original never overflows. A divisor of 0 would be a division by zero. */
    method UrtCfg(clkcon1: bv16, clksysdiv: bv16, baud: int32, bits: bv16, format: bv16) returns (status: bv16)
      requires 1 <= baud && 1 <= Divisor(HardwareDivider(clkcon1, clksysdiv), baud as nat)
      modifies this
      ensures var d := HardwareDivider(clkcon1, clksysdiv);
        comdiv == ComDiv(d, baud as nat) && comfbr == ComFbr(d, baud as nat)
      ensures comien == 0
      ensures comlcr & 3 == bits & 3 && comlcr & 0x3C == format & 0x3C && comlcr & 0xFFC0 == 0
      ensures status == comlsr == old(comlsr)
    {
      var select, iDiv: int32 := (clkcon1 & 0x0E00) >> 9, 0;
      match select {
        case 0 => iDiv := 1;
        case 1 => iDiv := 2;
        case 2 => iDiv := 4;
        case 3 => iDiv := 8;
        case 4 => iDiv := 16;
        case 5 => iDiv := 32;
        case 6 => iDiv := 64;
        case 7 => iDiv := 128;
        case _ =>
      }
      if clksysdiv & 1 == 1 {
        iDiv := iDiv * 2;
      }
      assert iDiv as int == TotalDivider(clkcon1, clksysdiv);
      DividerIsTheHardwares(clkcon1, clksysdiv);
      BitClockValues(iDiv as nat);
      var scaled: int32 := 2048 / (32 * iDiv) * 16000000;
      var clock: int32 := 16000000 / (32 * iDiv);
      var i1: int32 := Div(clock as nat, baud as nat) as int32;
      comdiv := Low16(i1 as int);
      var fraction: int32 := Div(Div(scaled as nat, i1 as nat), baud as nat) as int32 - 2048;
      comfbr := FractionWord(fraction as int);
      comien := 0;
      comlcr := (format & 0x3C) | (bits & 3);
      status := comlsr;
    }
  }

  // ----- Accuracy -----

  lemma ProductPositive(a: nat, b: nat)
    requires 1 <= a && 1 <= b
    ensures 1 <= a * b
  {
  }

  lemma MulMonotone(a: nat, x: int, y: int)
    requires x <= y
    ensures a * x <= a * y
  {
  }

  lemma MulShuffle(a: int, b: int, c: int)
    ensures a * (b * c) == c * (a * b) == (a * b) * c
  {
  }

  lemma DivBounds(a: nat, b: nat)
    requires 1 <= b
    ensures 0 <= a / b <= a
    ensures b * (a / b) <= a < b * (a / b + 1)
  {
  }

  /** Dividing twice is dividing by the product. */
  lemma NestedDivision(x: nat, a: nat, b: nat)
    requires 1 <= a && 1 <= b
    ensures var t := Div(Div(x, a), b); t * (a * b) <= x < (t + 1) * (a * b)
  {
    var y := Div(x, a);
    var t := Div(y, b);
    MulMonotone(a, b * t, y);
    MulMonotone(a, y + 1, b * (t + 1));
    MulShuffle(a, b, t);
    MulShuffle(a, b, t + 1);
  }

  lemma BitClockValues(d: nat)
    requires IsDivider(d)
    ensures BitClock(d) <= 500_000
    ensures d <= 64 ==> 2048 * BitClock(d) <= ScaledClock(d) < 2048 * (BitClock(d) + 1)
    ensures d <= 64 ==> 32 * d * ScaledClock(d) == 2048 * CLOCK
    ensures d > 64 ==> ScaledClock(d) == 0 && CLOCK < 32 * d * (BitClock(d) + 1)
  {
  }

  /** The scaled clock x is 2048 times a clock q that lies between c and 2c, so
      it holds c at least 2048 and fewer than 4096 times. */
  lemma RatioRange(x: nat, q: nat, c: nat, t: nat)
    requires t * c <= x < (t + 1) * c
    requires 2048 * q <= x < 2048 * (q + 1)
    requires c <= q < 2 * c
    ensures 2048 <= t <= 4095
  {
    assert c * (t + 1) == (t + 1) * c && c * t == t * c;
    if t < 2048 {
      MulMonotone(c, t + 1, 2048);
    } else if t > 4095 {
      MulMonotone(c, 4096, t);
    }
  }

  /** The integer divider leaves less than a factor of two to the fraction. */
  lemma DivisorRange(d: nat, baud: nat)
    requires IsDivider(d) && 1 <= baud && 1 <= Divisor(d, baud)
    ensures var c := Divisor(d, baud) * baud; 1 <= c <= BitClock(d) < 2 * c
  {
    DivisorSpan(BitClock(d), baud, Divisor(d, baud));
  }

  lemma DivisorSpan(x: nat, b: nat, q: nat)
    requires 1 <= b && 1 <= q && b * q <= x < b * (q + 1)
    ensures 1 <= q * b <= x < 2 * (q * b)
  {
    MulMonotone(b, 1, q);
    assert q * b == b * q && b * (q + 1) == b * q + b;
  }

  /** The fractional divider lies between 1 and 2, in units of 1/2048, whenever
      the clock divider leaves it any resolution. */
  lemma RatioBounds(d: nat, baud: nat)
    requires IsDivider(d) && d <= 64 && 1 <= baud && 1 <= Divisor(d, baud)
    ensures 2048 <= Ratio(d, baud) <= 4095
    ensures Ratio(d, baud) * (Divisor(d, baud) * baud) <= ScaledClock(d)
          < (Ratio(d, baud) + 1) * (Divisor(d, baud) * baud)
  {
    BitClockValues(d);
    DivisorRange(d, baud);
    NestedDivision(ScaledClock(d), Divisor(d, baud), baud);
    RatioRange(ScaledClock(d), BitClock(d), Divisor(d, baud) * baud, Ratio(d, baud));
  }

  /** OR-ing the enable bit and M = 1 into a fraction of the proper size
      disturbs none of its bits. */
  lemma FractionWordFields(n: nat)
    requires n <= 2047
    ensures var w := FractionWord(n);
      w <= 0xFFFF && FractionEnabled(w) && FieldM(w) == 1 && FieldN(w) == n
  {
  }

  /** What is written when the fractional arithmetic has run out of bits. */
  lemma FractionWordLost()
    ensures FractionWord(-2048) == 0xF800
    ensures FieldM(0xF800) == 3 && FieldN(0xF800) == 0
  {
  }

  lemma QuotientBounds(x: nat, y: nat, b: nat)
    requires 1 <= y
    ensures x as real / y as real >= b as real <==> x >= b * y
    ensures x as real / y as real < JustAbove(b) <==> 2048 * x < 2049 * (b * y)
    ensures x as real / y as real >= Twice(b) <==> x >= 2 * (b * y)
  {
  }

  /** The generated rate as a ratio of the scaled clock. */
  lemma GeneratedRatio(d: nat, comdiv: nat, n: nat)
    requires IsDivider(d) && d <= 64 && 1 <= comdiv
    ensures 1 <= comdiv * (2048 + n)
    ensures GeneratedBaud(d, comdiv, 1, n) == ScaledClock(d) as real / (comdiv * (2048 + n)) as real
  {
  }

  lemma ExactDivisor(x: nat, t: nat, i1: nat, baud: nat)
    requires t * (i1 * baud) <= x < (t + 1) * (i1 * baud) && 2048 <= t
    ensures baud * (i1 * t) <= x && 2048 * x < 2049 * (baud * (i1 * t))
  {
  }

  lemma HalfDivisor(x: nat, t: nat, i1: nat, baud: nat, comdiv: nat)
    requires t * (i1 * baud) <= x && 2 * comdiv <= i1
    requires 1 <= t && 1 <= baud && 1 <= comdiv
    ensures x >= 2 * (baud * (comdiv * t))
  {
  }

  /** With the divisor that the routine computes, its fraction gives at least the
      requested rate, and less than one part in 2048 above it. */
  lemma RateWithDivisor(d: nat, baud: nat, comdiv: nat)
    requires IsDivider(d) && d <= 64 && 1 <= baud && 1 <= Divisor(d, baud) == comdiv
    ensures JustFast(d, comdiv, ComFbr(d, baud), baud)
  {
    RatioBounds(d, baud);
    var t, x := Ratio(d, baud), ScaledClock(d);
    FractionWordFields(t - 2048);
    GeneratedRatio(d, comdiv, t - 2048);
    QuotientBounds(x, comdiv * t, baud);
    ExactDivisor(x, t, comdiv, baud);
  }

  /** With a divisor of at most half that size it gives at least twice the rate. */
  lemma RateWithHalf(d: nat, baud: nat, comdiv: nat)
    requires IsDivider(d) && d <= 64 && 1 <= baud && 1 <= comdiv && 2 * comdiv <= Divisor(d, baud)
    ensures RateOutside(d, comdiv, ComFbr(d, baud), TwoThirds(baud), Twice(baud))
  {
    RatioBounds(d, baud);
    var t, x := Ratio(d, baud), ScaledClock(d);
    FractionWordFields(t - 2048);
    GeneratedRatio(d, comdiv, t - 2048);
    QuotientBounds(x, comdiv * t, baud);
    HalfDivisor(x, t, Divisor(d, baud), baud, comdiv);
  }

  /** Beyond a total divider of 64 the scaled clock is 0 and M becomes 3: the
      generated rate is off by more than a third. */
  lemma CoarseDividerIsOff(d: nat, baud: nat)
    requires IsDivider(d) && d > 64 && 1 <= baud && 1 <= Divisor(d, baud)
    ensures ComDiv(d, baud) == Divisor(d, baud) && ComFbr(d, baud) == 0xF800
    ensures GeneratedBaud(d, ComDiv(d, baud), 3, 0) < TwoThirds(baud)
    ensures RateOutside(d, ComDiv(d, baud), ComFbr(d, baud), TwoThirds(baud), Twice(baud))
  {
    BitClockValues(d);
    DivisorRange(d, baud);
    FractionWordLost();
    var i1 := ComDiv(d, baud);
    assert i1 == Divisor(d, baud) <= BitClock(d) <= 0xFFFF;
    assert Ratio(d, baud) == 0;
    CoarseRate(d, BitClock(d), baud, i1);
  }

  lemma CoarseRate(d: nat, q: nat, baud: nat, i1: nat)
    requires IsDivider(d) && CLOCK < 32 * d * (q + 1) && 1 <= i1
    requires 1 <= i1 * baud && q < 2 * (i1 * baud)
    ensures GeneratedBaud(d, i1, 3, 0) < TwoThirds(baud)
  {
    var c := i1 * baud;
    var y := 32 * d * i1 * 6144;
    ProductPositive(32 * d, i1);
    assert CLOCK < 32 * d * (2 * c) by {
      MulMonotone(32 * d, q + 1, 2 * c);
    }
    assert y * baud == 6144 * (32 * d * c) by {
      MulShuffle(32 * d, i1, baud);
      assert 32 * d * i1 * baud == 32 * d * c;
    }
    BelowTwoThirds(2048 * CLOCK, y, baud);
  }

  lemma BelowTwoThirds(x: nat, y: nat, b: nat)
    requires 1 <= y && 3 * x < 2 * (y * b)
    ensures x as real / y as real < TwoThirds(b)
  {
  }

  /** At least the rate, and less than one part in 2048 above it, meets all tolerances. */
  lemma Tolerated(d: nat, comdiv: nat, comfbr: nat, baud: nat, e: real)
    requires 1 <= d && 1 <= baud && IsTolerance(e)
    requires JustFast(d, comdiv, comfbr, baud)
    ensures Accurate(d, comdiv, comfbr, baud, e)
  {
    Tolerances(baud, e);
  }

  /** Below two thirds of the rate, or from twice the rate on, meets none. */
  lemma NotTolerated(d: nat, comdiv: nat, comfbr: nat, baud: nat, e: real)
    requires 1 <= d && 1 <= baud && IsTolerance(e)
    requires RateOutside(d, comdiv, comfbr, TwoThirds(baud), Twice(baud))
    ensures !Accurate(d, comdiv, comfbr, baud, e)
  {
    Tolerances(baud, e);
  }

  lemma FineDivider(d: nat, baud: nat)
    requires IsDivider(d) && d <= 64 && 1 <= baud && 1 <= Divisor(d, baud) <= 0xFFFF
    ensures JustFast(d, ComDiv(d, baud), ComFbr(d, baud), baud)
  {
    RateWithDivisor(d, baud, ComDiv(d, baud));
  }

  lemma LostDivisor(d: nat, baud: nat)
    requires IsDivider(d) && d <= 64 && 1 <= baud && 0xFFFF < Divisor(d, baud)
    ensures RateOutside(d, ComDiv(d, baud), ComFbr(d, baud), TwoThirds(baud), Twice(baud))
  {
    BitClockValues(d);
    var comdiv := ComDiv(d, baud);
    assert 2 * comdiv <= Divisor(d, baud) <= 500_000;
    if comdiv != 0 {
      RateWithHalf(d, baud, comdiv);
    }
  }

  /** The registers that the routine writes generate the requested rate to within a
      fraction e of it, for every e from one part in 2048 to a third, exactly when the
      total divider is at most 64 and the integer divider fits its 16-bit register.
      The rate is then never below the requested one, and less than one part in 2048
      above it. */
  lemma UrtAccuracy(d: nat, baud: nat, e: real)
    requires IsDivider(d) && 1 <= baud && 1 <= Divisor(d, baud)
    requires IsTolerance(e)
    ensures Accurate(d, ComDiv(d, baud), ComFbr(d, baud), baud, e) <==> d <= 64 && Divisor(d, baud) <= 0xFFFF
    ensures Accurate(d, ComDiv(d, baud), ComFbr(d, baud), baud, e) ==>
      JustFast(d, ComDiv(d, baud), ComFbr(d, baud), baud)
  {
    if d > 64 {
      CoarseDividerIsOff(d, baud);
      NotTolerated(d, ComDiv(d, baud), ComFbr(d, baud), baud, e);
    } else if Divisor(d, baud) > 0xFFFF {
      LostDivisor(d, baud);
      NotTolerated(d, ComDiv(d, baud), ComFbr(d, baud), baud, e);
    } else {
      FineDivider(d, baud);
      Tolerated(d, ComDiv(d, baud), ComFbr(d, baud), baud, e);
    }
  }

  /** Both accuracies that are documented: 0.1 per cent for the standard rates, and
      1 per cent for all others. */
  lemma DocumentedAccuracy(d: nat, baud: nat)
    requires IsDivider(d) && 1 <= baud && 1 <= Divisor(d, baud)
    ensures Accurate(d, ComDiv(d, baud), ComFbr(d, baud), baud, 0.001) <==> d <= 64 && Divisor(d, baud) <= 0xFFFF
    ensures Accurate(d, ComDiv(d, baud), ComFbr(d, baud), baud, 0.01) <==> d <= 64 && Divisor(d, baud) <= 0xFFFF
  {
    UrtAccuracy(d, baud, 0.001);
    UrtAccuracy(d, baud, 0.01);
  }

  /** For all clock settings: the rate that the hardware generates, with its own divider,
      from the registers that UrtCfg leaves. */
  lemma ConfiguredAccuracy(clkcon1: bv16, clksysdiv: bv16, baud: nat, e: real)
    requires 1 <= baud && 1 <= Divisor(TotalDivider(clkcon1, clksysdiv), baud) && IsTolerance(e)
    ensures var d, code := HardwareDivider(clkcon1, clksysdiv), TotalDivider(clkcon1, clksysdiv);
      Accurate(d, ComDiv(code, baud), ComFbr(code, baud), baud, e) <==> d <= 64 && Divisor(d, baud) <= 0xFFFF
  {
    DividerIsTheHardwares(clkcon1, clksysdiv);
    UrtAccuracy(HardwareDivider(clkcon1, clksysdiv), baud, e);
  }

  /** With the clock at its reset setting, the registers for three standard rates. */
  lemma StandardRates()
    ensures HardwareDivider(0, 0) == 1
    ensures ComDiv(1, 1200) == 416 && ComFbr(1, 1200) == 0x8803
    ensures ComDiv(1, 9600) == 52 && ComFbr(1, 9600) == 0x8803
    ensures ComDiv(1, 115200) == 4 && ComFbr(1, 115200) == 0x88AE
  {
    RegistersFor(1200, 416, 2461538, 2051);
    RegistersFor(9600, 52, 19692307, 2051);
    RegistersFor(115200, 4, 256000000, 2222);
  }

  lemma RegistersFor(baud: nat, i1: nat, q: nat, t: nat)
    requires 1 <= baud && 1 <= i1 <= 0xFFFF && 2048 <= t <= 4095
    requires baud * i1 <= 500_000 < baud * (i1 + 1)
    requires i1 * q <= 1_024_000_000 < i1 * (q + 1)
    requires baud * t <= q < baud * (t + 1)
    ensures ComDiv(1, baud) == i1 && Divisor(1, baud) == i1
    ensures ComFbr(1, baud) == 0x8800 + (t - 2048)
  {
    DivIs(BitClock(1), baud, i1);
    DivIs(ScaledClock(1), i1, q);
    DivIs(q, baud, t);
    FractionWordIs(t - 2048);
  }

  lemma DivIs(a: nat, b: nat, q: nat)
    requires 1 <= b && b * q <= a < b * (q + 1)
    ensures Div(a, b) == q
  {
    var p := Div(a, b);
    if p < q { MulMonotone(b, p + 1, q); }
    if q < p { MulMonotone(b, q + 1, p); }
  }

  lemma FractionWordIs(n: nat)
    requires n <= 2047
    ensures FractionWord(n) == 0x8800 + n
  {
  }

  lemma Tolerances(baud: nat, e: real)
    requires 1 <= baud && IsTolerance(e)
    ensures TwoThirds(baud) <= baud as real * (1.0 - e) <= baud as real
    ensures JustAbove(baud) <= baud as real * (1.0 + e) < Twice(baud)
  {
  }
}
