/** What any run of requests to the PWM driver does to the timing of its pairs
    and to its pins. */
module PwmRuns {
  import opened Pwm

  datatype Ioctl = Ioctl(cmd: Command, args: nat) {
    function Arg(): word { args % 0x1_0000 }
  }

  function Run(r: Registers, cs: seq<Ioctl>): Registers {
    if cs == [] then r else
    Step(Run(r, cs[..|cs| - 1]), cs[|cs| - 1].cmd, cs[|cs| - 1].args)
  }

  // ----- Timing -----

  /** What a user of the driver thinks of: a period and a duty within it. */
  datatype Timing = Timing(period: nat, duty: nat)

  function TimingOf(p: Pair): Timing {
    Timing(p.len, p.com1)
  }

  /** The request as its user sees it: a period clips the duty, a duty is clipped
      by the period, and a zero asks for nothing. */
  function Asked(t: Timing, o: Output, c: Ioctl): Timing {
    if c.Arg() == 0 then t
    else if c.cmd == Freq(o) then Timing(c.Arg(), Min(t.duty, c.Arg()))
    else if c.cmd == Duty(o) then Timing(t.period, Min(t.period, c.Arg()))
    else t
  }

  function AskedAll(t: Timing, o: Output, cs: seq<Ioctl>): Timing {
    if cs == [] then t else Asked(AskedAll(t, o, cs[..|cs| - 1]), o, cs[|cs| - 1])
  }

  /** The low side switches no later than the high side, which switches within
      the period; no register is 0. */
  predicate Sound(p: Pair) {
    1 <= p.com2 <= p.com1 <= p.len == p.com0
  }

  lemma FreqRefines(p: Pair, f: word)
    requires Sound(p)
    ensures Sound(FreqRequest(p, f))
    ensures TimingOf(FreqRequest(p, f)) == if f == 0 then TimingOf(p) else Timing(f, Min(p.com1, f))
  {
  }

  lemma DutyRefines(p: Pair, d: word)
    requires Sound(p)
    ensures Sound(DutyRequest(p, d))
    ensures TimingOf(DutyRequest(p, d)) == if d == 0 then TimingOf(p) else Timing(p.len, Min(p.len, d))
  {
    assert Min(d, p.len) % 0x1_0000_0000 == Min(d, p.len);
  }

  /** PwmTime on one pair: refused exactly when the high side is below the low side;
      otherwise period and high side are taken in 16 bits, and the low side unless the
      high side lost so many bits that it fell below. */
  lemma TimedRegisters(p: Pair, freq: nat, high: nat, low: nat)
    ensures high < low ==> Timed(p, freq, high, low) == p
    ensures high >= low ==>
      var q := Timed(p, freq, high, low);
      && q.len == q.com0 == freq % 0x1_0000 && q.com1 == high % 0x1_0000
      && (if high % 0x1_0000 >= low then q.com2 == low else high >= 0x1_0000 && q.com2 == p.com2)
  {
  }

  /** On any pair, sound or not: a period request is refused when it changes nothing, is
      zero, or meets a duty of zero; otherwise all four registers follow it. */
  lemma FreqOnAnyPair(p: Pair, f: word)
    ensures FreqRequest(p, f)
         == if f == p.len || f == 0 || p.com1 == 0 then p else Pair(f, f, if p.com1 <= f then p.com1 else f, 1)
  {
  }

  /** The same for a duty request, which a period of zero refuses. */
  lemma DutyOnAnyPair(p: Pair, d: word)
    ensures DutyRequest(p, d)
         == if d == p.com1 || d == 0 || p.len == 0 then p else Pair(p.len, p.len, if d <= p.len then d else p.len, 1)
  {
    assert Min(d, p.len) % 0x1_0000_0000 == Min(d, p.len);
  }

  lemma StepOnPair(r: Registers, o: Output, c: Ioctl)
    ensures PairOf(Step(r, c.cmd, c.args), o)
      == if c.cmd == Freq(o) then FreqRequest(PairOf(r, o), c.Arg())
         else if c.cmd == Duty(o) then DutyRequest(PairOf(r, o), c.Arg())
         else PairOf(r, o)
  {
  }

  lemma StepRefines(r: Registers, o: Output, c: Ioctl)
    requires Sound(PairOf(r, o))
    ensures Sound(PairOf(Step(r, c.cmd, c.args), o))
    ensures TimingOf(PairOf(Step(r, c.cmd, c.args), o)) == Asked(TimingOf(PairOf(r, o)), o, c)
  {
    StepOnPair(r, o, c);
    FreqRefines(PairOf(r, o), c.Arg());
    DutyRefines(PairOf(r, o), c.Arg());
  }

  /** Any run keeps a sound pair sound, and its registers follow the requests for
      it one by one, whatever was asked of the other pair in between. */
  lemma {:induction false} RunRefines(r: Registers, o: Output, cs: seq<Ioctl>)
    requires Sound(PairOf(r, o))
    ensures Sound(PairOf(Run(r, cs), o))
    ensures TimingOf(PairOf(Run(r, cs), o)) == AskedAll(TimingOf(PairOf(r, o)), o, cs)
    ensures Run(r, cs).spare == r.spare
  {
    if cs != [] {
      var n := |cs| - 1;
      RunRefines(r, o, cs[..n]);
      StepRefines(Run(r, cs[..n]), o, cs[n]);
    }
  }

  lemma StepUnchangedOrSound(r: Registers, o: Output, c: Ioctl)
    ensures var p := PairOf(Step(r, c.cmd, c.args), o); p == PairOf(r, o) || (Sound(p) && p.com2 == 1)
  {
    StepOnPair(r, o, c);
    FreqOnAnyPair(PairOf(r, o), c.Arg());
    DutyOnAnyPair(PairOf(r, o), c.Arg());
  }

  /** From any state of the registers, every run leaves a pair as it was or makes it
      sound, with its low side at 1. */
  lemma {:induction false} UnchangedOrSound(r: Registers, o: Output, cs: seq<Ioctl>)
    ensures var p := PairOf(Run(r, cs), o); p == PairOf(r, o) || (Sound(p) && p.com2 == 1)
  {
    if cs != [] {
      var n := |cs| - 1;
      UnchangedOrSound(r, o, cs[..n]);
      StepUnchangedOrSound(Run(r, cs[..n]), o, cs[n]);
    }
  }

  /** The lowest period asked for in a run, if it is below the bound. */
  function LowestPeriod(o: Output, cs: seq<Ioctl>, bound: nat): nat {
    if cs == [] then bound
    else
      var c, low := cs[|cs| - 1], LowestPeriod(o, cs[..|cs| - 1], bound);
      if c.cmd == Freq(o) && c.Arg() > 0 then Min(low, c.Arg()) else low
  }

  /** Until the next duty request, the duty is what it was, clipped by the lowest
      period seen since: raising the period again does not bring it back. */
  lemma {:induction false} DutyIsClippedForGood(t: Timing, o: Output, cs: seq<Ioctl>)
    requires forall i :: 0 <= i < |cs| && cs[i].cmd == Duty(o) ==> cs[i].Arg() == 0
    ensures AskedAll(t, o, cs).duty == LowestPeriod(o, cs, t.duty)
  {
    if cs != [] {
      DutyIsClippedForGood(t, o, cs[..|cs| - 1]);
    }
  }

  // ----- A pair that no request can move -----

  predicate Stuck(p: Pair) {
    p.len == 0 && p.com1 == 0
  }

  /** From period and duty 0 every request is refused: the driver never gets such
      a pair going. */
  lemma {:induction false} StuckForever(r: Registers, o: Output, cs: seq<Ioctl>)
    requires Stuck(PairOf(r, o))
    ensures PairOf(Run(r, cs), o) == PairOf(r, o)
  {
    if cs != [] {
      StuckForever(r, o, cs[..|cs| - 1]);
    }
  }

  /** A request that changes a pair which is not stuck. */
  function Mover(o: Output, p: Pair): Ioctl {
    if p.len == 0 then Ioctl(Freq(o), 1)
    else if p.com1 != 1 then Ioctl(Duty(o), 1)
    else Ioctl(Freq(o), if p.len == 1 then 2 else 1)
  }

  /** Those are the only pairs that no request moves. */
  lemma StuckExactly(r: Registers, o: Output)
    ensures Stuck(PairOf(r, o)) <==> forall c: Ioctl :: PairOf(Step(r, c.cmd, c.args), o) == PairOf(r, o)
  {
    var p := PairOf(r, o);
    if Stuck(p) {
      forall c: Ioctl
        ensures PairOf(Step(r, c.cmd, c.args), o) == p
      {
        StuckForever(r, o, [c]);
        assert [c][..0] == [];
        assert Run(r, [c]) == Step(Run(r, []), c.cmd, c.args);
      }
    } else {
      var c := Mover(o, p);
      assert PairOf(Step(r, c.cmd, c.args), o) != p;
    }
  }

  // ----- Pins -----

  /** Whether the last request for a pin was a PWM request. */
  predicate LastIsPwm(o: Output, cs: seq<Ioctl>) {
    if cs == [] then false
    else
      var c := cs[|cs| - 1].cmd;
      if c == Freq(o) || c == Duty(o) then true
      else if c == ForceHigh(o) || c == ForceLow(o) then false
      else LastIsPwm(o, cs[..|cs| - 1])
  }

  /** The level of a pin's output bit: that of the last force request. */
  predicate Level(o: Output, cs: seq<Ioctl>, before: bool) {
    if cs == [] then before
    else
      var c := cs[|cs| - 1].cmd;
      if c == ForceHigh(o) then true
      else if c == ForceLow(o) then false
      else Level(o, cs[..|cs| - 1], before)
  }

  const MUXES: Bits := {4, 5, 8, 9}
  const PINS: Bits := {2, 4}

  predicate PinFollows(r: Registers, o: Output, cs: seq<Ioctl>, now: Registers) {
    && now.gpcon * o.Mux() == (if LastIsPwm(o, cs) then o.MuxPwm() else {})
    && (o.Bit() <= now.out1 <==> Level(o, cs, o.Bit() <= r.out1))
  }

  predicate RestFollows(r: Registers, now: Registers) {
    now.gpcon - MUXES == r.gpcon - MUXES && now.gpoen == r.gpoen + PINS && now.out1 - PINS == r.out1 - PINS
  }

  /** After initialisation and any run, a pin is in PWM mode exactly when the last
      request for it was a PWM request, and a GPIO output otherwise, holding the
      level it was last forced to; nothing else of the port has changed. */
  lemma {:induction false} PinsOfRun(r: Registers, cs: seq<Ioctl>)
    ensures var now := Run(Initialised(r), cs);
      PinFollows(r, Rhref, cs, now) && PinFollows(r, Heat, cs, now) && RestFollows(r, now)
  {
    if cs != [] {
      var n := |cs| - 1;
      PinsOfRun(r, cs[..n]);
      var now := Run(Initialised(r), cs[..n]);
      PinOfStep(r, Rhref, cs, now);
      PinOfStep(r, Heat, cs, now);
      RestOfStep(r, now, cs[n]);
    }
  }

  lemma PinOfStep(r: Registers, o: Output, cs: seq<Ioctl>, now: Registers)
    requires cs != [] && PinFollows(r, o, cs[..|cs| - 1], now)
    ensures PinFollows(r, o, cs, Step(now, cs[|cs| - 1].cmd, cs[|cs| - 1].args))
  {
  }

  lemma RestOfStep(r: Registers, now: Registers, c: Ioctl)
    requires RestFollows(r, now)
    ensures RestFollows(r, Step(now, c.cmd, c.args))
  {
  }

  /** Once the device has been opened, no request stops the outputs or leaves the
      standard mode. */
  lemma {:induction false} EnabledAfterOpen(r: Registers, cs: seq<Ioctl>)
    ensures var con0 := Run(Opened(Initialised(r)), cs).con0; 0 in con0 && 1 !in con0
  {
    if cs != [] {
      EnabledAfterOpen(r, cs[..|cs| - 1]);
    }
  }
}
